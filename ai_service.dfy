/** The document analysis of the AI service (`analyzeDocument`): look the
    (document, query) pair up in the cache; on a miss, split the document into
    chunks, ask the language model about each chunk in turn, fold every ten
    answers (and the last few) into a summary, fold the summaries into the final
    answer, and cache it. Any failure is rethrown with a fixed prefix.

    The two language-model requests (`analyzeChunk`, `summarizeAnalyses`) are
    parameters: total functions from their arguments to a reply or an error.
    The method records every request it makes, in order. */
module AiService {
  import opened Prelude
  import Chunker
  import CacheService

  /** Chunk analyses folded by one intermediate summary. */
  const BatchSize := 10

  /** The message prefix of every error `analyzeDocument` throws. */
  const FailurePrefix := "Failed to analyze document: "

  /** `analyzeChunk(chunk, query)` */
  type Analyzer = (string, string) -> Result<string>

  /** `summarizeAnalyses(items, query)` */
  type Summarizer = (seq<string>, string) -> Result<string>

  /** One request to the language model. */
  datatype Call = AnalyzeChunk(chunk: string, query: string) | Summarize(items: seq<string>, query: string)

  function Answer(call: Call, analyze: Analyzer, summarize: Summarizer): Result<string>
  {
    match call
    case AnalyzeChunk(chunk, query) => analyze(chunk, query)
    case Summarize(items, query) => summarize(items, query)
  }

  /** `str.slice(0, n)` */
  function Take(s: string, n: nat): (r: string)
  {
    if |s| <= n then s else s[..n]
  }

  /** The cache key `analysis:${encoded.slice(0, 20)}:${query}`, where
      `encoded` is the base64 encoding of the document. */
  function CacheKey(encoded: string, query: string): (key: string)
    ensures var n := if |encoded| < 20 then |encoded| else 20;
      && |key| == 10 + n + |query|
      && key[..9] == "analysis:"
      && key[9..9 + n] == encoded[..n]
      && key[9 + n] == ':'
      && key[10 + n..] == query
  {
    "analysis:" + Take(encoded, 20) + ":" + query
  }

  /** The same document asked two different questions gets two keys. */
  lemma {:induction false} CacheKeySeparatesQueries(encoded: string, q1: string, q2: string)
    requires q1 != q2
    ensures CacheKey(encoded, q1) != CacheKey(encoded, q2)
  {
    var p := "analysis:" + Take(encoded, 20) + ":";
    assert CacheKey(encoded, q1) == p + q1 && CacheKey(encoded, q2) == p + q2;
    if |q1| == |q2| {
      var k :| 0 <= k < |q1| && q1[k] != q2[k];
      assert (p + q1)[|p| + k] != (p + q2)[|p| + k];
    }
  }

  /** Only the first 20 characters of the encoding count: two documents whose
      encodings agree there share every key. */
  lemma CacheKeyUsesPrefix(e1: string, e2: string, query: string)
    requires |e1| >= 20 && |e2| >= 20 && e1[..20] == e2[..20]
    ensures CacheKey(e1, query) == CacheKey(e2, query)
  {
  }

  /** Whatever string `r` holds, or "" for an error. */
  function Got(r: Result<string>): string
  {
    if r.Ok? then r.value else ""
  }

  /** Consecutive batches of `BatchSize` elements, the last one possibly
      shorter. */
  function BatchesOf<T>(xs: seq<T>): seq<seq<T>>
    decreases |xs|
  {
    if |xs| <= BatchSize then (if xs == [] then [] else [xs])
    else [xs[..BatchSize]] + BatchesOf(xs[BatchSize..])
  }

  /** The batches hold the elements in order, each once; there are
      ceil(N / 10) of them; all are full except possibly the last, which is
      not empty. */
  lemma {:induction false} BatchesShape<T>(xs: seq<T>)
    ensures var bs := BatchesOf(xs);
      && Flatten(bs) == xs
      && |bs| == (|xs| + BatchSize - 1) / BatchSize
      && (forall i :: 0 <= i < |bs| ==> 0 < |bs[i]| <= BatchSize)
      && (forall i :: 0 <= i < |bs| - 1 ==> |bs[i]| == BatchSize)
    decreases |xs|
  {
    if |xs| > BatchSize {
      var bs := BatchesOf(xs);
      BatchesShape(xs[BatchSize..]);
      assert bs[1..] == BatchesOf(xs[BatchSize..]);
      assert xs == xs[..BatchSize] + xs[BatchSize..];
    }
  }

  /** Batching a sequence whose first part is a whole number of batches. */
  lemma {:induction false} BatchesAppend<T>(a: seq<T>, b: seq<T>)
    requires |a| % BatchSize == 0
    ensures BatchesOf(a + b) == BatchesOf(a) + BatchesOf(b)
    decreases |a|
  {
    if a == [] {
      assert a + b == b;
    } else {
      assert (a + b)[..BatchSize] == a[..BatchSize];
      assert (a + b)[BatchSize..] == a[BatchSize..] + b;
      BatchesAppend(a[BatchSize..], b);
      if |a| == BatchSize && b == [] {
        assert a + b == a;
      } else if |a| == BatchSize {
        assert a[BatchSize..] + b == b;
      }
    }
  }

  /** `analyzeChunk` requests for the chunks, in order. */
  function AnalyzeCalls(chunks: seq<string>, query: string): (calls: seq<Call>)
    ensures |calls| == |chunks|
  {
    seq(|chunks|, i requires 0 <= i < |chunks| => AnalyzeChunk(chunks[i], query))
  }

  /** The analyses the language model returns for the chunks. */
  function AnalysesOf(chunks: seq<string>, query: string, analyze: Analyzer): (analyses: seq<string>)
    ensures |analyses| == |chunks|
  {
    seq(|chunks|, i requires 0 <= i < |chunks| => Got(analyze(chunks[i], query)))
  }

  /** The requests for the batches of chunks: each chunk analysed, then the
      batch's analyses summarised. */
  function BatchPlan(batches: seq<seq<string>>, query: string, analyze: Analyzer): seq<Call>
  {
    if batches == [] then []
    else AnalyzeCalls(batches[0], query) + [Summarize(AnalysesOf(batches[0], query, analyze), query)]
         + BatchPlan(batches[1..], query, analyze)
  }

  /** The summaries of the batches. */
  function Summaries(batches: seq<seq<string>>, query: string, analyze: Analyzer, summarize: Summarizer): (s: seq<string>)
    ensures |s| == |batches|
  {
    seq(|batches|, i requires 0 <= i < |batches| => Got(summarize(AnalysesOf(batches[i], query, analyze), query)))
  }

  /** Every request `analyzeDocument` makes on a cache miss when no request
      fails, in order: the batches' requests, then one summary over the batch
      summaries. */
  function Plan(chunks: seq<string>, query: string, analyze: Analyzer, summarize: Summarizer): seq<Call>
  {
    var batches := BatchesOf(chunks);
    BatchPlan(batches, query, analyze) + [Summarize(Summaries(batches, query, analyze, summarize), query)]
  }

  lemma {:induction false} BatchPlanAppend(a: seq<seq<string>>, b: seq<seq<string>>, query: string, analyze: Analyzer)
    ensures BatchPlan(a + b, query, analyze) == BatchPlan(a, query, analyze) + BatchPlan(b, query, analyze)
  {
    if a == [] {
      assert a + b == b;
    } else {
      assert (a + b)[0] == a[0] && (a + b)[1..] == a[1..] + b;
      BatchPlanAppend(a[1..], b, query, analyze);
    }
  }

  /** The chunks of the `analyzeChunk` requests among `calls`, in order. */
  function AnalyzedChunks(calls: seq<Call>): seq<string>
  {
    if calls == [] then []
    else (if calls[0].AnalyzeChunk? then [calls[0].chunk] else []) + AnalyzedChunks(calls[1..])
  }

  /** The items of the `summarizeAnalyses` requests among `calls`, in order. */
  function SummarizedItems(calls: seq<Call>): seq<seq<string>>
  {
    if calls == [] then []
    else (if calls[0].Summarize? then [calls[0].items] else []) + SummarizedItems(calls[1..])
  }

  lemma {:induction false} ProjectionsAppend(a: seq<Call>, b: seq<Call>)
    ensures AnalyzedChunks(a + b) == AnalyzedChunks(a) + AnalyzedChunks(b)
    ensures SummarizedItems(a + b) == SummarizedItems(a) + SummarizedItems(b)
  {
    if a == [] {
      assert a + b == b;
    } else {
      assert (a + b)[0] == a[0] && (a + b)[1..] == a[1..] + b;
      ProjectionsAppend(a[1..], b);
    }
  }

  lemma {:induction false} AnalyzeCallsProjections(chunks: seq<string>, query: string)
    ensures AnalyzedChunks(AnalyzeCalls(chunks, query)) == chunks
    ensures SummarizedItems(AnalyzeCalls(chunks, query)) == []
  {
    if chunks != [] {
      var calls := AnalyzeCalls(chunks, query);
      assert calls[1..] == AnalyzeCalls(chunks[1..], query);
      AnalyzeCallsProjections(chunks[1..], query);
    }
  }

  /** The analyses of each batch, in order. */
  function BatchAnalyses(batches: seq<seq<string>>, query: string, analyze: Analyzer): (r: seq<seq<string>>)
    ensures |r| == |batches|
  {
    seq(|batches|, i requires 0 <= i < |batches| => AnalysesOf(batches[i], query, analyze))
  }

  lemma {:induction false} BatchPlanProjections(batches: seq<seq<string>>, query: string, analyze: Analyzer)
    ensures AnalyzedChunks(BatchPlan(batches, query, analyze)) == Flatten(batches)
    ensures SummarizedItems(BatchPlan(batches, query, analyze)) == BatchAnalyses(batches, query, analyze)
  {
    if batches != [] {
      var b := batches[0];
      var head := AnalyzeCalls(b, query) + [Summarize(AnalysesOf(b, query, analyze), query)];
      BatchPlanProjections(batches[1..], query, analyze);
      AnalyzeCallsProjections(b, query);
      ProjectionsAppend(AnalyzeCalls(b, query), [Summarize(AnalysesOf(b, query, analyze), query)]);
      ProjectionsAppend(head, BatchPlan(batches[1..], query, analyze));
      assert SummarizedItems([Summarize(AnalysesOf(b, query, analyze), query)]) == [AnalysesOf(b, query, analyze)];
      assert AnalyzedChunks([Summarize(AnalysesOf(b, query, analyze), query)]) == [];
      assert BatchAnalyses(batches, query, analyze)
        == [AnalysesOf(b, query, analyze)] + BatchAnalyses(batches[1..], query, analyze);
    }
  }

  /** On a cache miss with no failure, every chunk is analysed exactly once, in
      order; there are ceil(N / 10) batch summaries, each over the analyses of
      one batch of at most ten consecutive chunks, and then exactly one more
      summary, over the batch summaries, which is the last request. */
  lemma PlanRequests(chunks: seq<string>, query: string, analyze: Analyzer, summarize: Summarizer)
    ensures var plan, batches := Plan(chunks, query, analyze, summarize), BatchesOf(chunks);
      && AnalyzedChunks(plan) == chunks
      && SummarizedItems(plan) == BatchAnalyses(batches, query, analyze) + [Summaries(batches, query, analyze, summarize)]
      && |SummarizedItems(plan)| == (|chunks| + BatchSize - 1) / BatchSize + 1
      && plan[|plan| - 1] == Summarize(Summaries(batches, query, analyze, summarize), query)
  {
    var batches := BatchesOf(chunks);
    var last := Summarize(Summaries(batches, query, analyze, summarize), query);
    BatchesShape(chunks);
    BatchPlanProjections(batches, query, analyze);
    ProjectionsAppend(BatchPlan(batches, query, analyze), [last]);
    assert SummarizedItems([last]) == [last.items];
    assert AnalyzedChunks([last]) == [];
  }

  /** A document without chunks still gets one summary request, over no
      items. */
  lemma NoChunksPlan(query: string, analyze: Analyzer, summarize: Summarizer)
    ensures Plan([], query, analyze, summarize) == [Summarize([], query)]
  {
  }

  /** Twenty-five chunks: three batch summaries, over 10, 10 and 5 analyses,
      then one summary over the three batch summaries. */
  lemma TwentyFiveChunks(chunks: seq<string>, query: string, analyze: Analyzer, summarize: Summarizer)
    requires |chunks| == 25
    ensures var items := SummarizedItems(Plan(chunks, query, analyze, summarize));
      |items| == 4 && |items[0]| == 10 && |items[1]| == 10 && |items[2]| == 5 && |items[3]| == 3
  {
    PlanRequests(chunks, query, analyze, summarize);
    var bs := BatchesOf(chunks);
    var rest := chunks[10..];
    assert rest[..10] == chunks[10..20] && rest[10..] == chunks[20..];
    assert BatchesOf(chunks[20..]) == [chunks[20..]];
    assert BatchesOf(rest) == [chunks[10..20]] + [chunks[20..]];
    assert bs == [chunks[..10]] + BatchesOf(rest);
  }

  /** Appending a batch of at most ten to a whole number of batches. */
  lemma BatchesPrefix(chunks: seq<string>, full: nat, j: nat)
    requires full % BatchSize == 0 && full < j <= |chunks| && j - full <= BatchSize
    ensures BatchesOf(chunks[..j]) == BatchesOf(chunks[..full]) + [chunks[full..j]]
  {
    assert chunks[..j] == chunks[..full] + chunks[full..j];
    BatchesAppend(chunks[..full], chunks[full..j]);
  }

  lemma AnalyzeCallsPrefix(chunks: seq<string>, k: nat, query: string)
    requires k <= |chunks|
    ensures AnalyzeCalls(chunks[..k], query) == AnalyzeCalls(chunks, query)[..k]
  {
  }

  /** The plan splits after any whole number of batches. */
  lemma PlanSplit(chunks: seq<string>, full: nat, query: string, analyze: Analyzer, summarize: Summarizer)
    requires full % BatchSize == 0 && full <= |chunks|
    ensures Plan(chunks, query, analyze, summarize)
      == BatchPlan(BatchesOf(chunks[..full]), query, analyze) + BatchPlan(BatchesOf(chunks[full..]), query, analyze)
         + [Summarize(Summaries(BatchesOf(chunks), query, analyze, summarize), query)]
  {
    assert chunks == chunks[..full] + chunks[full..];
    BatchesAppend(chunks[..full], chunks[full..]);
    BatchPlanAppend(BatchesOf(chunks[..full]), BatchesOf(chunks[full..]), query, analyze);
  }

  /** The requests of a non-empty sequence of chunks start with the analyses
      of its first (at most ten) chunks. */
  lemma BatchPlanStart(rest: seq<string>, k: nat, query: string, analyze: Analyzer)
    requires k <= |rest| && k <= BatchSize
    ensures AnalyzeCalls(rest[..k], query) <= BatchPlan(BatchesOf(rest), query, analyze)
  {
    if rest != [] {
      var b0 := BatchesOf(rest)[0];
      assert b0 == if |rest| <= BatchSize then rest else rest[..BatchSize];
      assert rest[..k] == b0[..k];
      AnalyzeCallsPrefix(b0, k, query);
    }
  }

  /** The requests made up to any point of the loop form a prefix of the plan:
      the requests of the finished batches, then the analyses of the current
      batch so far. */
  lemma PlanPrefix(chunks: seq<string>, full: nat, j: nat, query: string, analyze: Analyzer, summarize: Summarizer)
    requires full % BatchSize == 0 || full == |chunks|
    requires full <= j <= |chunks| && j - full <= BatchSize
    ensures BatchPlan(BatchesOf(chunks[..full]), query, analyze) + AnalyzeCalls(chunks[full..j], query)
      <= Plan(chunks, query, analyze, summarize)
  {
    var done := BatchPlan(BatchesOf(chunks[..full]), query, analyze);
    if full == |chunks| {
      assert chunks[..full] == chunks;
      assert AnalyzeCalls(chunks[full..j], query) == [];
      assert done + [] == done;
    } else {
      PlanSplit(chunks, full, query, analyze, summarize);
      var rest := chunks[full..];
      assert chunks[full..j] == rest[..j - full];
      BatchPlanStart(rest, j - full, query, analyze);
      PrefixExtend(done, AnalyzeCalls(chunks[full..j], query), BatchPlan(BatchesOf(rest), query, analyze),
        [Summarize(Summaries(BatchesOf(chunks), query, analyze, summarize), query)]);
    }
  }

  lemma PrefixExtend<T>(p: seq<T>, a: seq<T>, b: seq<T>, x: seq<T>)
    requires a <= b
    ensures p + a <= p + b + x
  {
    assert p + a == (p + b + x)[..|p| + |a|];
  }

  /** Closing a batch that started at a multiple of ten: its analyses and its
      summary request follow the requests of the batches before it. */
  lemma FlushStep(chunks: seq<string>, full: nat, j: nat, query: string, analyze: Analyzer, summarize: Summarizer)
    requires full % BatchSize == 0 && full < j <= |chunks| && j - full <= BatchSize
    ensures BatchPlan(BatchesOf(chunks[..j]), query, analyze)
      == BatchPlan(BatchesOf(chunks[..full]), query, analyze) + AnalyzeCalls(chunks[full..j], query)
         + [Summarize(AnalysesOf(chunks[full..j], query, analyze), query)]
    ensures Summaries(BatchesOf(chunks[..j]), query, analyze, summarize)
      == Summaries(BatchesOf(chunks[..full]), query, analyze, summarize)
         + [Got(summarize(AnalysesOf(chunks[full..j], query, analyze), query))]
  {
    BatchesPrefix(chunks, full, j);
    BatchPlanAppend(BatchesOf(chunks[..full]), [chunks[full..j]], query, analyze);
    assert BatchPlan([chunks[full..j]], query, analyze)
      == AnalyzeCalls(chunks[full..j], query) + [Summarize(AnalysesOf(chunks[full..j], query, analyze), query)];
  }

  /** The state of the loop of `analyzeDocument` after `i` chunks: the first
      `full` chunks form closed batches whose summaries are `summaries`, the
      analyses of the open batch are `analyses`, and the requests made so far,
      all answered successfully, are those of the closed batches followed by
      the analyses of the open one. */
  ghost predicate Progress(chunks: seq<string>, full: nat, i: nat, analyses: seq<string>, summaries: seq<string>,
                           calls: seq<Call>, query: string, analyze: Analyzer, summarize: Summarizer)
  {
    && full <= i <= |chunks|
    && (i < |chunks| ==> full % BatchSize == 0 && i - full < BatchSize)
    && (i == |chunks| ==> full == i)
    && analyses == AnalysesOf(chunks[full..i], query, analyze)
    && summaries == Summaries(BatchesOf(chunks[..full]), query, analyze, summarize)
    && calls == BatchPlan(BatchesOf(chunks[..full]), query, analyze) + AnalyzeCalls(chunks[full..i], query)
    && forall j :: 0 <= j < |calls| ==> Answer(calls[j], analyze, summarize).Ok?
  }

  lemma ProgressStart(chunks: seq<string>, query: string, analyze: Analyzer, summarize: Summarizer)
    ensures Progress(chunks, 0, 0, [], [], [], query, analyze, summarize)
  {
    assert chunks[..0] == [] && chunks[0..0] == [];
  }

  /** A successful analysis that leaves the batch open. */
  lemma ProgressAnalyze(chunks: seq<string>, full: nat, i: nat, analyses: seq<string>, summaries: seq<string>,
                        calls: seq<Call>, query: string, analyze: Analyzer, summarize: Summarizer)
    requires Progress(chunks, full, i, analyses, summaries, calls, query, analyze, summarize)
    requires i < |chunks| - 1 && |analyses| + 1 < BatchSize && analyze(chunks[i], query).Ok?
    ensures Progress(chunks, full, i + 1, analyses + [analyze(chunks[i], query).value], summaries,
                     calls + [AnalyzeChunk(chunks[i], query)], query, analyze, summarize)
  {
    AnalyzeStep(chunks, full, i, query, analyze);
  }

  /** A successful analysis that closes the batch, followed by a successful
      summary of it. */
  lemma ProgressFlush(chunks: seq<string>, full: nat, i: nat, analyses: seq<string>, summaries: seq<string>,
                      calls: seq<Call>, query: string, analyze: Analyzer, summarize: Summarizer)
    requires Progress(chunks, full, i, analyses, summaries, calls, query, analyze, summarize)
    requires i < |chunks| && (|analyses| + 1 == BatchSize || i == |chunks| - 1)
    requires analyze(chunks[i], query).Ok?
    requires summarize(analyses + [analyze(chunks[i], query).value], query).Ok?
    ensures var batch := analyses + [analyze(chunks[i], query).value];
      Progress(chunks, i + 1, i + 1, [], summaries + [summarize(batch, query).value],
               calls + [AnalyzeChunk(chunks[i], query), Summarize(batch, query)], query, analyze, summarize)
  {
    AnalyzeStep(chunks, full, i, query, analyze);
    FlushStep(chunks, full, i + 1, query, analyze, summarize);
    assert chunks[i + 1..i + 1] == [];
  }

  /** A failing analysis ends the requests inside the plan. */
  lemma ProgressAnalyzeFails(chunks: seq<string>, full: nat, i: nat, analyses: seq<string>, summaries: seq<string>,
                             calls: seq<Call>, query: string, analyze: Analyzer, summarize: Summarizer)
    requires Progress(chunks, full, i, analyses, summaries, calls, query, analyze, summarize)
    requires i < |chunks|
    ensures calls + [AnalyzeChunk(chunks[i], query)] <= Plan(chunks, query, analyze, summarize)
  {
    AnalyzeStep(chunks, full, i, query, analyze);
    PlanPrefix(chunks, full, i + 1, query, analyze, summarize);
  }

  /** A failing batch summary ends the requests inside the plan. */
  lemma ProgressFlushFails(chunks: seq<string>, full: nat, i: nat, analyses: seq<string>, summaries: seq<string>,
                           calls: seq<Call>, query: string, analyze: Analyzer, summarize: Summarizer)
    requires Progress(chunks, full, i, analyses, summaries, calls, query, analyze, summarize)
    requires i < |chunks| && (|analyses| + 1 == BatchSize || i == |chunks| - 1)
    ensures var batch := analyses + [Got(analyze(chunks[i], query))];
      calls + [AnalyzeChunk(chunks[i], query), Summarize(batch, query)] <= Plan(chunks, query, analyze, summarize)
  {
    AnalyzeStep(chunks, full, i, query, analyze);
    FlushStep(chunks, full, i + 1, query, analyze, summarize);
    assert chunks[i + 1..i + 1] == [];
    PlanPrefix(chunks, i + 1, i + 1, query, analyze, summarize);
  }

  /** After the last chunk, the final summary request completes the plan. */
  lemma ProgressEnd(chunks: seq<string>, full: nat, analyses: seq<string>, summaries: seq<string>,
                    calls: seq<Call>, query: string, analyze: Analyzer, summarize: Summarizer)
    requires Progress(chunks, full, |chunks|, analyses, summaries, calls, query, analyze, summarize)
    ensures calls + [Summarize(summaries, query)] == Plan(chunks, query, analyze, summarize)
  {
    assert chunks[..full] == chunks && chunks[full..] == [];
  }

  /** One more chunk analysed in the current batch. */
  lemma AnalyzeStep(chunks: seq<string>, full: nat, i: nat, query: string, analyze: Analyzer)
    requires full <= i < |chunks|
    ensures AnalyzeCalls(chunks[full..i + 1], query) == AnalyzeCalls(chunks[full..i], query) + [AnalyzeChunk(chunks[i], query)]
    ensures AnalysesOf(chunks[full..i + 1], query, analyze) == AnalysesOf(chunks[full..i], query, analyze) + [Got(analyze(chunks[i], query))]
  {
  }

  /** The answer to the last request made. */
  function LastAnswer(calls: seq<Call>, analyze: Analyzer, summarize: Summarizer): Result<string>
    requires calls != []
  {
    Answer(calls[|calls| - 1], analyze, summarize)
  }

  /** The body of the `try` block of `analyzeDocument` after a cache miss:
      analyse the chunks one at a time, summarise every ten analyses (and the
      last, shorter batch), then summarise the summaries. The requests made are
      the plan cut after the first failing one, every earlier one succeeded,
      and the outcome is the answer to the last request. */
  method RunPlan(chunks: seq<string>, query: string, analyze: Analyzer, summarize: Summarizer)
    returns (result: Result<string>, calls: seq<Call>)
    ensures calls != [] && calls <= Plan(chunks, query, analyze, summarize)
    ensures forall j :: 0 <= j < |calls| - 1 ==> Answer(calls[j], analyze, summarize).Ok?
    ensures result == LastAnswer(calls, analyze, summarize)
    ensures result.Ok? ==> calls == Plan(chunks, query, analyze, summarize)
  {
    var chunkAnalyses: seq<string> := [];
    var finalSummaries: seq<string> := [];
    calls := [];
    ghost var full: nat := 0;
    ProgressStart(chunks, query, analyze, summarize);

    for i := 0 to |chunks|
      invariant Progress(chunks, full, i, chunkAnalyses, finalSummaries, calls, query, analyze, summarize)
    {
      var chunkAnalysis := analyze(chunks[i], query);
      if chunkAnalysis.Err? {
        ProgressAnalyzeFails(chunks, full, i, chunkAnalyses, finalSummaries, calls, query, analyze, summarize);
        return chunkAnalysis, calls + [AnalyzeChunk(chunks[i], query)];
      }

      if |chunkAnalyses| + 1 == BatchSize || i == |chunks| - 1 {
        var batch := chunkAnalyses + [chunkAnalysis.value];
        var summary := summarize(batch, query);
        if summary.Err? {
          ProgressFlushFails(chunks, full, i, chunkAnalyses, finalSummaries, calls, query, analyze, summarize);
          return summary, calls + [AnalyzeChunk(chunks[i], query), Summarize(batch, query)];
        }
        ProgressFlush(chunks, full, i, chunkAnalyses, finalSummaries, calls, query, analyze, summarize);
        calls := calls + [AnalyzeChunk(chunks[i], query), Summarize(batch, query)];
        finalSummaries := finalSummaries + [summary.value];
        chunkAnalyses := [];
        full := i + 1;
      } else {
        ProgressAnalyze(chunks, full, i, chunkAnalyses, finalSummaries, calls, query, analyze, summarize);
        calls := calls + [AnalyzeChunk(chunks[i], query)];
        chunkAnalyses := chunkAnalyses + [chunkAnalysis.value];
      }
    }

    ProgressEnd(chunks, full, chunkAnalyses, finalSummaries, calls, query, analyze, summarize);
    result := summarize(finalSummaries, query);
    calls := calls + [Summarize(finalSummaries, query)];
  }

  /** `analyzeDocument(fileContent, query)` against the cache `cache`, where
      `base64` is the encoding of the document used for its cache key.

      On a cache hit the cached value is returned and no request is made. On a
      miss, the requests made are the plan for the document's chunks, cut
      after the first one that fails; every request before it succeeded. With
      no failure the final summary is cached and returned; on a failure the
      error is rethrown with the fixed prefix and the cache is left alone. */
  method AnalyzeDocument(cache: CacheService.Cache, fileContent: string, query: string,
                         base64: string -> string, analyze: Analyzer, summarize: Summarizer)
    returns (result: Result<string>, calls: seq<Call>)
    modifies cache
    ensures var cached := CacheService.Lookup(old(cache.entries), CacheKey(base64(fileContent), query));
      cached.Some? ==> result == Ok(cached.value) && calls == [] && cache.entries == old(cache.entries)
    ensures CacheService.Lookup(old(cache.entries), CacheKey(base64(fileContent), query)).None? ==>
      && calls != []
      && calls <= Plan(Chunker.Chunks(fileContent, Chunker.DefaultMaxChars), query, analyze, summarize)
      && (forall j :: 0 <= j < |calls| - 1 ==> Answer(calls[j], analyze, summarize).Ok?)
    ensures CacheService.Lookup(old(cache.entries), CacheKey(base64(fileContent), query)).None? && result.Ok? ==>
      && calls == Plan(Chunker.Chunks(fileContent, Chunker.DefaultMaxChars), query, analyze, summarize)
      && LastAnswer(calls, analyze, summarize) == result
      && cache.entries == old(cache.entries)[CacheKey(base64(fileContent), query) := result.value]
    ensures CacheService.Lookup(old(cache.entries), CacheKey(base64(fileContent), query)).None? && result.Err? ==>
      && LastAnswer(calls, analyze, summarize).Err?
      && result.message == FailurePrefix + LastAnswer(calls, analyze, summarize).message
      && cache.entries == old(cache.entries)
  {
    var cacheKey := CacheKey(base64(fileContent), query);
    var cachedResult := cache.Get(cacheKey);
    if cachedResult.Some? {
      return Ok(cachedResult.value), [];
    }

    var chunks := Chunker.SplitIntoChunks(fileContent, Chunker.DefaultMaxChars);
    var finalResult;
    finalResult, calls := RunPlan(chunks, query, analyze, summarize);
    if finalResult.Err? {
      return Err(FailurePrefix + finalResult.message), calls;
    }
    cache.Set(cacheKey, finalResult.value);
    result := Ok(finalResult.value);
  }

  /** Analysing the same document with the same query twice: a non-empty
      result is served from the cache the second time without any request,
      while an empty one, which the cache treats as missing, is recomputed. */
  method AnalyzeTwice(cache: CacheService.Cache, fileContent: string, query: string,
                      base64: string -> string, analyze: Analyzer, summarize: Summarizer)
    returns (first: Result<string>, second: Result<string>, secondCalls: seq<Call>)
    modifies cache
    ensures first.Ok? && first.value != "" ==> second == first && secondCalls == []
    ensures first.Ok? && first.value == "" ==> secondCalls != []
  {
    var calls;
    first, calls := AnalyzeDocument(cache, fileContent, query, base64, analyze, summarize);
    second, secondCalls := AnalyzeDocument(cache, fileContent, query, base64, analyze, summarize);
  }
}
