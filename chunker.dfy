/** The sentence chunker of the AI service (`splitIntoChunks`): the text is cut
    into sentences by the pattern `/[^.!?]+[.!?]+/g`, and the sentences are packed
    greedily into chunks of about `maxChars` characters. */
module Chunker {
  import opened Prelude
  import opened Text

  /** Length of the longest prefix of `s` whose characters are all terminal
      (`terminal`) or all non-terminal (`!terminal`). */
  function LeadingRun(s: string, terminal: bool): (n: nat)
    ensures n <= |s|
    ensures forall i :: 0 <= i < n ==> IsTerminal(s[i]) == terminal
    ensures n < |s| ==> IsTerminal(s[n]) != terminal
  {
    if s != [] && IsTerminal(s[0]) == terminal then 1 + LeadingRun(s[1..], terminal) else 0
  }

  /** One match of `[^.!?]+[.!?]+`: it starts with a non-terminal character,
      ends with a terminal one, and once a terminal character occurs every later
      one is terminal too. */
  ghost predicate IsSentence(s: string)
  {
    && |s| >= 2
    && !IsTerminal(s[0])
    && IsTerminal(s[|s| - 1])
    && forall i, j :: 0 <= i <= j < |s| && IsTerminal(s[i]) ==> IsTerminal(s[j])
  }

  /** `r` lists the matches of the pattern in `s`: after the leading terminal
      characters of `s` come the matches, back to back, and then a tail without
      any terminal character. */
  ghost predicate SplitsInto(s: string, r: seq<string>)
  {
    var lead, m := LeadingRun(s, true), |Flatten(r)|;
    && lead + m <= |s|
    && s[lead..lead + m] == Flatten(r)
    && forall i :: lead + m <= i < |s| ==> !IsTerminal(s[i])
  }

  /** The match found at the start of `s`: non-terminal characters up to `k`,
      then terminal ones up to `n`, and no terminal character at `n`. */
  lemma FirstMatch(s: string, k: nat, n: nat)
    requires 0 < k < |s| && k == LeadingRun(s, false)
    requires n == k + LeadingRun(s[k..], true)
    ensures n <= |s| && IsSentence(s[..n]) && (n < |s| ==> !IsTerminal(s[n]))
    ensures LeadingRun(s[n..], true) == 0
  {
    TerminalRun(s, k);
    RunStopsAt(s, n);
    SentencePrefix(s, k, n);
  }

  /** The terminal run that starts at `k`, seen in `s` itself. */
  lemma TerminalRun(s: string, k: nat)
    requires k < |s| && IsTerminal(s[k])
    ensures var n := k + LeadingRun(s[k..], true);
      && k < n <= |s|
      && (forall i :: k <= i < n ==> IsTerminal(s[i]))
      && (n < |s| ==> !IsTerminal(s[n]))
  {
    var t := LeadingRun(s[k..], true);
    assert s[k..][0] == s[k];
    forall i | k <= i < k + t ensures IsTerminal(s[i]) {
      assert s[i] == s[k..][i - k];
    }
    if k + t < |s| {
      assert s[k + t] == s[k..][t];
    }
  }

  /** No terminal run starts at a non-terminal character (or at the end). */
  lemma RunStopsAt(s: string, n: nat)
    requires n <= |s| && (n < |s| ==> !IsTerminal(s[n]))
    ensures LeadingRun(s[n..], true) == 0
  {
    if n < |s| {
      assert s[n..][0] == s[n];
    }
  }

  /** Non-terminal characters before `k` and terminal ones from `k` to `n`
      make one match. */
  lemma SentencePrefix(s: string, k: nat, n: nat)
    requires 0 < k < n <= |s|
    requires forall i :: 0 <= i < k ==> !IsTerminal(s[i])
    requires forall i :: k <= i < n ==> IsTerminal(s[i])
    ensures IsSentence(s[..n])
  {
    var u := s[..n];
    forall i, j | 0 <= i <= j < n && IsTerminal(u[i]) ensures IsTerminal(u[j]) {
      assert u[i] == s[i] && u[j] == s[j];
    }
  }

  /** The match found at the start of `s` extends the matches found after it to
      the matches of `s` itself. */
  lemma MatchStep(s: string, n: nat, rest: seq<string>)
    requires n <= |s| && LeadingRun(s, true) == 0 && LeadingRun(s[n..], true) == 0
    requires SplitsInto(s[n..], rest)
    ensures SplitsInto(s, [s[..n]] + rest)
  {
    var r := [s[..n]] + rest;
    assert r[1..] == rest;
    assert Flatten(r) == s[..n] + Flatten(rest);
    var m := |Flatten(rest)|;
    assert s[..n + m] == s[..n] + s[n..][..m];
    forall i | n + m <= i < |s| ensures !IsTerminal(s[i]) {
      assert s[i] == s[n..][i - n];
    }
  }

  /** Leading terminal characters are skipped by the scan. */
  lemma SkipStep(s: string, rest: seq<string>)
    requires s != [] && IsTerminal(s[0])
    requires SplitsInto(s[1..], rest)
    ensures SplitsInto(s, rest)
  {
    var lead := LeadingRun(s[1..], true);
    assert LeadingRun(s, true) == lead + 1;
    var m := |Flatten(rest)|;
    assert s[1..][lead..lead + m] == s[lead + 1..lead + 1 + m];
    forall i | lead + 1 + m <= i < |s| ensures !IsTerminal(s[i]) {
      assert s[i] == s[1..][i - 1];
    }
  }

  /** `text.match(/[^.!?]+[.!?]+/g) || []`. The matches, in order, are exactly
      the text with its leading terminal characters and its terminal-free tail
      cut off: everything after the last terminal character is never matched. */
  function Sentences(s: string): (r: seq<string>)
    ensures forall i :: 0 <= i < |r| ==> IsSentence(r[i])
    ensures SplitsInto(s, r)
    decreases |s|
  {
    if s == [] then []
    else if IsTerminal(s[0]) then
      var r := Sentences(s[1..]);
      SkipStep(s, r);
      r
    else
      var k := LeadingRun(s, false);
      if k == |s| then
        assert forall i :: 0 <= i < |s| ==> !IsTerminal(s[i]);
        []
      else
        var n := k + LeadingRun(s[k..], true);
        var rest := Sentences(s[n..]);
        FirstMatch(s, k, n);
        MatchStep(s, n, rest);
        [s[..n]] + rest
  }

  /** The default chunk size of the AI service. */
  const DefaultMaxChars := 500

  /** The buffer `currentChunk` after the sentences of `g` were appended to an
      empty buffer: each sentence followed by one space. */
  function Buffer(g: seq<string>): (b: string)
  {
    if g == [] then "" else Buffer(g[..|g| - 1]) + g[|g| - 1] + " "
  }

  /** Each sentence of `g` after the first was appended because the buffer plus
      that sentence stayed within `maxChars`. */
  ghost predicate Fits(g: seq<string>, maxChars: int)
  {
    forall j :: 1 <= j < |g| ==> |Buffer(g[..j])| + |g[j]| <= maxChars
  }

  /** The loop of `splitIntoChunks` on sentence groups: `done` are the groups
      already pushed, `cur` the group in the buffer, `rest` the sentences still
      to come. A sentence that would overflow the buffer flushes it first, even
      when the buffer is empty; at the end a non-empty buffer is flushed. */
  function Pack(rest: seq<string>, maxChars: int, done: seq<seq<string>>, cur: seq<string>): (groups: seq<seq<string>>)
    decreases |rest|
  {
    if rest == [] then
      if cur == [] then done else done + [cur]
    else if |Buffer(cur)| + |rest[0]| > maxChars then
      Pack(rest[1..], maxChars, done + [cur], [rest[0]])
    else
      Pack(rest[1..], maxChars, done, cur + [rest[0]])
  }

  /** The sentence groups that become chunks. */
  function Groups(sentences: seq<string>, maxChars: int): seq<seq<string>>
  {
    Pack(sentences, maxChars, [], [])
  }

  /** What the greedy packing promises, independent of how it is computed:
      the groups hold the sentences in order, each exactly once; within a group
      every later sentence fitted; a new group starts only when the next
      sentence did not fit; only the first group can be empty, and it is empty
      exactly when the first sentence alone exceeds `maxChars`. */
  ghost predicate GreedyPacking(sentences: seq<string>, maxChars: int, groups: seq<seq<string>>)
  {
    && Flatten(groups) == sentences
    && (forall i :: 0 <= i < |groups| ==> Fits(groups[i], maxChars))
    && (forall i :: 0 < i < |groups| ==> groups[i] != [] && |Buffer(groups[i - 1])| + |groups[i][0]| > maxChars)
    && (sentences == [] <==> groups == [])
    && (sentences != [] ==> (groups[0] == [] <==> |sentences[0]| > maxChars))
  }

  /** The state of the packing loop after `consumed` was read. */
  ghost predicate PackState(consumed: seq<string>, maxChars: int, done: seq<seq<string>>, cur: seq<string>)
  {
    && Flatten(done) + cur == consumed
    && (forall i :: 0 <= i < |done| ==> Fits(done[i], maxChars))
    && Fits(cur, maxChars)
    && (forall i :: 0 < i < |done| ==> done[i] != [] && |Buffer(done[i - 1])| + |done[i][0]| > maxChars)
    && (done != [] ==> cur != [] && |Buffer(done[|done| - 1])| + |cur[0]| > maxChars)
    && (cur == [] ==> done == [])
    && (consumed != [] ==> ((done != [] && done[0] == []) <==> |consumed[0]| > maxChars))
  }

  lemma AppendFits(g: seq<string>, s: string, maxChars: int)
    requires Fits(g, maxChars)
    requires g != [] ==> |Buffer(g)| + |s| <= maxChars
    ensures Fits(g + [s], maxChars)
  {
    var h := g + [s];
    forall j | 1 <= j < |h| ensures |Buffer(h[..j])| + |h[j]| <= maxChars {
      if j < |g| {
        assert h[..j] == g[..j];
      } else {
        assert h[..j] == g;
      }
    }
  }

  /** One step of the loop keeps its state. */
  lemma {:induction false} PackStep(consumed: seq<string>, maxChars: int, done: seq<seq<string>>, cur: seq<string>, s: string)
    requires PackState(consumed, maxChars, done, cur)
    ensures |Buffer(cur)| + |s| > maxChars ==> PackState(consumed + [s], maxChars, done + [cur], [s])
    ensures |Buffer(cur)| + |s| <= maxChars ==> PackState(consumed + [s], maxChars, done, cur + [s])
  {
    FlattenAppend(done, [cur]);
    assert Flatten([cur]) == cur + Flatten([]);
    if consumed == [] {
      assert cur == [] && done == [];
    }
    if |Buffer(cur)| + |s| <= maxChars {
      AppendFits(cur, s, maxChars);
    }
  }

  /** The final flush completes the promise of the greedy packing. */
  lemma PackDone(consumed: seq<string>, maxChars: int, done: seq<seq<string>>, cur: seq<string>)
    requires PackState(consumed, maxChars, done, cur)
    ensures GreedyPacking(consumed, maxChars, Pack([], maxChars, done, cur))
  {
    FlattenAppend(done, [cur]);
    assert Flatten([cur]) == cur + Flatten([]);
  }

  lemma {:induction false} PackIsGreedy(rest: seq<string>, maxChars: int, consumed: seq<string>, done: seq<seq<string>>, cur: seq<string>)
    requires PackState(consumed, maxChars, done, cur)
    ensures GreedyPacking(consumed + rest, maxChars, Pack(rest, maxChars, done, cur))
    decreases |rest|
  {
    if rest == [] {
      assert consumed + rest == consumed;
      PackDone(consumed, maxChars, done, cur);
    } else {
      var s := rest[0];
      assert consumed + rest == (consumed + [s]) + rest[1..];
      PackStep(consumed, maxChars, done, cur, s);
      if |Buffer(cur)| + |s| > maxChars {
        PackIsGreedy(rest[1..], maxChars, consumed + [s], done + [cur], [s]);
      } else {
        PackIsGreedy(rest[1..], maxChars, consumed + [s], done, cur + [s]);
      }
    }
  }

  /** The groups of `splitIntoChunks` are a greedy packing of the sentences. */
  lemma GroupsAreGreedy(sentences: seq<string>, maxChars: int)
    ensures GreedyPacking(sentences, maxChars, Groups(sentences, maxChars))
  {
    PackIsGreedy(sentences, maxChars, [], [], []);
  }

  /** Each group becomes one chunk: its buffer, trimmed. */
  function TrimAll(groups: seq<seq<string>>): (chunks: seq<string>)
    ensures |chunks| == |groups|
  {
    seq(|groups|, i requires 0 <= i < |groups| => Trim(Buffer(groups[i])))
  }

  /** The chunks `splitIntoChunks(text, maxChars)` returns. */
  function Chunks(text: string, maxChars: int): seq<string>
  {
    TrimAll(Groups(Sentences(text), maxChars))
  }

  /** `splitIntoChunks`: the loop over the matched sentences, pushing the
      trimmed buffer whenever the next sentence would overflow it. */
  method SplitIntoChunks(text: string, maxChars: int) returns (chunks: seq<string>)
    ensures chunks == Chunks(text, maxChars)
  {
    chunks := [];
    var currentChunk := "";
    var sentences := Sentences(text);
    ghost var done: seq<seq<string>> := [];
    ghost var cur: seq<string> := [];
    for i := 0 to |sentences|
      invariant chunks == TrimAll(done)
      invariant currentChunk == Buffer(cur)
      invariant Pack(sentences[i..], maxChars, done, cur) == Groups(sentences, maxChars)
    {
      var sentence := sentences[i];
      assert sentences[i..][1..] == sentences[i + 1..];
      if |currentChunk| + |sentence| > maxChars {
        chunks := chunks + [Trim(currentChunk)];
        currentChunk := "";
        done, cur := done + [cur], [];
      }
      currentChunk := currentChunk + sentence + " ";
      cur := cur + [sentence];
      assert cur[..|cur| - 1] + [sentence] == cur;
    }
    if currentChunk != "" {
      chunks := chunks + [Trim(currentChunk)];
      done := done + [cur];
    }
  }

  /** A chunk is never longer than the buffer it was cut from, minus the space
      after its last sentence. */
  lemma ChunkOfGroup(g: seq<string>)
    requires g != []
    ensures Trim(Buffer(g)) == Trim(Buffer(g[..|g| - 1]) + g[|g| - 1])
    ensures |Trim(Buffer(g))| <= |Buffer(g[..|g| - 1])| + |g[|g| - 1]|
  {
    var x := Buffer(g[..|g| - 1]) + g[|g| - 1];
    TrimAppendSpace(x);
    TrimProperties(x);
  }

  /** A group of sentences never yields an empty chunk. */
  lemma NonEmptyGroupChunk(g: seq<string>)
    requires g != [] && g[|g| - 1] != [] && IsTerminal(g[|g| - 1][|g[|g| - 1]| - 1])
    ensures Trim(Buffer(g)) != ""
  {
    var last := g[|g| - 1];
    var x := Buffer(g[..|g| - 1]) + last;
    ChunkOfGroup(g);
    assert x[|x| - 1] == last[|last| - 1];
    TrimProperties(x);
  }

  /** The last sentence of a group ends with a terminal character. */
  lemma GroupEndsTerminal(sentences: seq<string>, groups: seq<seq<string>>, i: nat)
    requires Flatten(groups) == sentences && forall k :: 0 <= k < |sentences| ==> IsSentence(sentences[k])
    requires i < |groups| && groups[i] != []
    ensures var last := groups[i][|groups[i]| - 1]; last != [] && IsTerminal(last[|last| - 1])
  {
    FlattenContains(groups, i, |groups[i]| - 1);
  }

  /** The shape of one chunk, from the group it was cut from. */
  lemma ChunkAt(sentences: seq<string>, maxChars: int, groups: seq<seq<string>>, i: nat)
    requires GreedyPacking(sentences, maxChars, groups)
    requires forall k :: 0 <= k < |sentences| ==> IsSentence(sentences[k])
    requires i < |groups|
    ensures var chunk := Trim(Buffer(groups[i]));
      && Trimmed(chunk)
      && (|groups[i]| >= 2 ==> |chunk| <= maxChars)
      && (chunk != "" && |chunk| > maxChars ==> |groups[i]| == 1 && chunk == Trim(groups[i][0]))
      && (chunk == "" <==> i == 0 && |sentences[0]| > maxChars)
  {
    var g := groups[i];
    TrimProperties(Buffer(g));
    if g == [] {
      assert i == 0;
    } else {
      ChunkOfGroup(g);
      assert Fits(g, maxChars);
      if |g| >= 2 {
        assert |Buffer(g[..|g| - 1])| + |g[|g| - 1]| <= maxChars;
      } else {
        assert g[..0] == [];
        assert Buffer(g[..0]) + g[0] == g[0];
      }
      GroupEndsTerminal(sentences, groups, i);
      NonEmptyGroupChunk(g);
    }
  }

  /** Every chunk is trimmed. A chunk built from two or more sentences is at most
      `maxChars` long; a longer non-empty one holds exactly one sentence. Only the first
      chunk can be empty, and it is, exactly when the first sentence alone
      exceeds `maxChars`. */
  lemma ChunkShape(text: string, maxChars: int)
    ensures var sentences, groups, chunks := Sentences(text), Groups(Sentences(text), maxChars), Chunks(text, maxChars);
      && (forall i :: 0 <= i < |chunks| ==> Trimmed(chunks[i]))
      && (forall i :: 0 <= i < |chunks| && |groups[i]| >= 2 ==> |chunks[i]| <= maxChars)
      && (forall i :: 0 <= i < |chunks| && chunks[i] != "" && |chunks[i]| > maxChars ==> |groups[i]| == 1 && chunks[i] == Trim(groups[i][0]))
      && (forall i :: 0 <= i < |chunks| ==> (chunks[i] == "" <==> i == 0 && |sentences[0]| > maxChars))
  {
    var sentences := Sentences(text);
    var groups := Groups(sentences, maxChars);
    GroupsAreGreedy(sentences, maxChars);
    var chunks := Chunks(text, maxChars);
    forall i | 0 <= i < |chunks|
      ensures Trimmed(chunks[i])
      ensures |groups[i]| >= 2 ==> |chunks[i]| <= maxChars
      ensures chunks[i] != "" && |chunks[i]| > maxChars ==> |groups[i]| == 1 && chunks[i] == Trim(groups[i][0])
      ensures chunks[i] == "" <==> i == 0 && |sentences[0]| > maxChars
    {
      assert chunks[i] == Trim(Buffer(groups[i]));
      ChunkAt(sentences, maxChars, groups, i);
    }
  }

  /** Text without any '.', '!' or '?' (the empty text among it) yields no
      chunks at all: nothing is matched and the final flush finds an empty
      buffer. */
  lemma NoTerminalNoChunks(text: string, maxChars: int)
    requires !HasTerminal(text)
    ensures Sentences(text) == [] && Chunks(text, maxChars) == []
  {
  }

  /** A group of two or more sentences starts with one shorter than `maxChars`. */
  lemma FirstFits(g: seq<string>, maxChars: int)
    requires Fits(g, maxChars) && |g| >= 2
    ensures |g[0]| < maxChars
  {
    assert g[..1] == [g[0]];
    assert Buffer(g[..1]) == g[0] + " ";
  }

  /** A first sentence longer than `maxChars` forms a group of its own, after
      an empty first group. */
  lemma OversizedFirstGroup(sentences: seq<string>, maxChars: int)
    requires sentences != [] && |sentences[0]| > maxChars
    ensures var groups := Groups(sentences, maxChars);
      |groups| >= 2 && groups[0] == [] && groups[1] == [sentences[0]]
    ensures var chunks := TrimAll(Groups(sentences, maxChars));
      chunks[0] == "" && chunks[1] == Trim(sentences[0])
  {
    var groups := Groups(sentences, maxChars);
    GroupsAreGreedy(sentences, maxChars);
    assert Flatten(groups) == groups[0] + Flatten(groups[1..]);
    assert groups[1..] != [];
    var g := groups[1];
    assert Flatten(groups[1..]) == g + Flatten(groups[2..]);
    assert g[0] == sentences[0];
    assert Buffer([g[0]]) == g[0] + " ";
    if |g| >= 2 {
      FirstFits(g, maxChars);
    }
    TrimAppendSpace(g[0]);
  }

  /** When the first sentence alone exceeds `maxChars`, the first chunk is the
      empty string (the buffer is flushed although nothing was put in it) and
      that sentence, trimmed, is the second chunk. */
  lemma OversizedFirstSentence(text: string, maxChars: int)
    requires Sentences(text) != [] && |Sentences(text)[0]| > maxChars
    ensures |Chunks(text, maxChars)| >= 2 && Chunks(text, maxChars)[0] == ""
    ensures Chunks(text, maxChars)[1] == Trim(Sentences(text)[0])
  {
    OversizedFirstGroup(Sentences(text), maxChars);
  }
}
