/** The listing analysis of the multi-tenant service
    (backend/src/analysis/analysis.service.ts): a cached analysis per publication, or a
    fresh one asked of a language model and saved. The model's call is an outcome given
    as a parameter, and so are the configured API key, fresh ids and the clock. */
module Analysis {
  import opened Common
  import opened PublicationModel
  import Newest

  /** The four recommendations the model answers with. */
  datatype AnalysisResult = AnalysisResult(
    titleRecommendations: string,
    descriptionIssues: string,
    conversionOpportunities: string,
    commercialRisks: string)

  /** A row of `publication_analysis`. */
  datatype AnalysisRecord = AnalysisRecord(
    id: string,
    publicationId: string,
    result: AnalysisResult,
    model: Option<string>,
    createdAt: int)

  function RecordCreatedAt(a: AnalysisRecord): int { a.createdAt }

  function ForPublication(publicationId: string): AnalysisRecord -> bool
  {
    (a: AnalysisRecord) => a.publicationId == publicationId
  }

  datatype StockStatus = Low | Medium | Healthy

  /** The stock level reported to the model. */
  function StockStatusOf(availableQuantity: int): (s: StockStatus)
    ensures s == Low <==> availableQuantity <= 2
    ensures s == Medium <==> 2 < availableQuantity <= 5
    ensures s == Healthy <==> 5 < availableQuantity
  {
    if availableQuantity <= 2 then Low
    else if availableQuantity <= 5 then Medium
    else Healthy
  }

  function Rank(s: StockStatus): nat
  {
    match s
    case Low => 0
    case Medium => 1
    case Healthy => 2
  }

  /** More stock never reads as a lower level. */
  lemma StockStatusIsMonotone(a: int, b: int)
    requires a <= b
    ensures Rank(StockStatusOf(a)) <= Rank(StockStatusOf(b))
  {
  }

  /** The metrics sent to the model; the sold-to-stock ratio itself is a float and only
      its presence is kept. */
  datatype Metrics = Metrics(stockStatus: StockStatus, hasSoldToStockRatio: bool)

  /** What the prompt describes: the publication's fields, its metrics and its first
      description. */
  datatype AnalysisRequest = AnalysisRequest(
    publicationId: string,
    title: string,
    price: real,
    status: string,
    availableQuantity: int,
    soldQuantity: int,
    categoryId: string,
    metrics: Metrics,
    description: string)

  function RequestFor(p: PublicationDto): (q: AnalysisRequest)
    ensures q.publicationId == p.id && q.availableQuantity == p.availableQuantity
    ensures q.title == p.title && q.price == p.price && q.status == p.status
    ensures q.soldQuantity == p.soldQuantity && q.categoryId == p.categoryId
    ensures q.metrics.stockStatus == StockStatusOf(p.availableQuantity)
    ensures q.metrics.hasSoldToStockRatio <==> p.availableQuantity > 0
    ensures q.description == if |p.descriptions| > 0 then p.descriptions[0].description else ""
  {
    AnalysisRequest(p.id, p.title, p.price, p.status, p.availableQuantity, p.soldQuantity, p.categoryId,
                    Metrics(StockStatusOf(p.availableQuantity), p.availableQuantity > 0),
                    if |p.descriptions| > 0 then p.descriptions[0].description else "")
  }

  /** What the chat completion call produced: an error with its status and code, or an
      answer with its content, its model name, and the content parsed as an analysis
      (None when it is not valid JSON). */
  datatype LlmOutcome =
    | LlmThrew(status: Option<int>, code: Option<string>)
    | LlmAnswered(content: Option<string>, model: Option<string>, parsed: Option<AnalysisResult>)

  const DefaultModel := "gpt-4o-mini"

  /** A failed call is a 503: the quota kind for a 429 or an `insufficient_quota` code. */
  function LlmFailure(status: Option<int>, code: Option<string>): (e: Error)
    ensures e.ServiceUnavailable?
    ensures e.why == QuotaExhausted <==> status == Some(429) || code == Some("insufficient_quota")
    ensures e.why != QuotaExhausted ==> e.why == LlmFailed
  {
    if status == Some(429) || code == Some("insufficient_quota") then ServiceUnavailable(QuotaExhausted)
    else ServiceUnavailable(LlmFailed)
  }

  /** The cached analysis analyzePublication returns, if any: the newest record of the
      publication. */
  function Cached(records: seq<AnalysisRecord>, publicationId: string): Option<nat>
  {
    Newest.Latest(records, ForPublication(publicationId), RecordCreatedAt)
  }

  /** analyzePublication's result, the records afterwards, and the request sent to the
      model if one was sent. */
  function AnalysisOutcome(records: seq<AnalysisRecord>, publicationId: string, loaded: Result<PublicationDto>,
                           force: Option<bool>, apiKey: Option<string>, llm: LlmOutcome, newId: string, now: int)
    : (o: (Result<AnalysisResult>, seq<AnalysisRecord>, Option<AnalysisRequest>))
    ensures records <= o.1 && |o.1| <= |records| + 1
    ensures o.0.Err? ==> o.1 == records
    ensures o.2.Some? ==> loaded.Ok? && o.2.value == RequestFor(loaded.value)
  {
    if loaded.Err? then (Err(NotFound), records, None)
    else if !(force.Some? && force.value) && Cached(records, publicationId).Some? then
      (Ok(records[Cached(records, publicationId).value].result), records, None)
    else if !Truthy(apiKey) then (Err(ServiceUnavailable(ApiKeyMissing)), records, None)
    else
      var sent := Some(RequestFor(loaded.value));
      match llm
      case LlmThrew(status, code) => (Err(LlmFailure(status, code)), records, sent)
      case LlmAnswered(content, model, parsed) =>
        if !Truthy(content) || parsed.None? then (Err(Unhandled), records, sent)
        else
          var saved := AnalysisRecord(newId, publicationId, parsed.value,
                                      Some(if Truthy(model) then model.value else DefaultModel), now);
          (Ok(parsed.value), records + [saved], sent)
  }

  /** The model is asked only on a cache miss or when forced, and only with an API key;
      without one the call is a 503 that saves nothing. A thrown call is the 503 of
      `LlmFailure`, an empty or unparsable answer a 500, and neither saves anything. An
      unforced call with a cached analysis answers the publication's newest one. */
  lemma ModelAskedOnlyOnMiss(records: seq<AnalysisRecord>, publicationId: string, loaded: Result<PublicationDto>,
                             force: Option<bool>, apiKey: Option<string>, llm: LlmOutcome, newId: string, now: int)
    ensures var (r, after, sent) := AnalysisOutcome(records, publicationId, loaded, force, apiKey, llm, newId, now);
      && (sent.Some? <==>
            loaded.Ok? && ((force.Some? && force.value) || Cached(records, publicationId).None?) && Truthy(apiKey))
      && (sent.Some? ==> sent.value == RequestFor(loaded.value))
      && (r == Err(ServiceUnavailable(ApiKeyMissing)) ==> after == records && sent.None?)
      && (loaded.Ok? && ((force.Some? && force.value) || Cached(records, publicationId).None?) && !Truthy(apiKey) ==>
            r == Err(ServiceUnavailable(ApiKeyMissing)))
      && (sent.Some? && llm.LlmThrew? ==> r == Err(LlmFailure(llm.status, llm.code)) && after == records)
      && (sent.Some? && llm.LlmAnswered? && (!Truthy(llm.content) || llm.parsed.None?) ==>
            r == Err(Unhandled) && after == records)
      && (r == Err(NotFound) <==> loaded.Err?)
      && (loaded.Ok? && !(force.Some? && force.value) && Cached(records, publicationId).Some? ==>
            && Newest.IsNewest(records, ForPublication(publicationId), RecordCreatedAt, Cached(records, publicationId).value)
            && r == Ok(records[Cached(records, publicationId).value].result) && after == records)
  {
    Newest.LatestIsNewest(records, ForPublication(publicationId), RecordCreatedAt);
  }

  /** At most one record is saved, after the existing ones, exactly when a fresh
      analysis succeeds; it holds that analysis and the model's name or the default. */
  lemma SavesAtMostOnce(records: seq<AnalysisRecord>, publicationId: string, loaded: Result<PublicationDto>,
                        force: Option<bool>, apiKey: Option<string>, llm: LlmOutcome, newId: string, now: int)
    ensures var (r, after, sent) := AnalysisOutcome(records, publicationId, loaded, force, apiKey, llm, newId, now);
      && (after == records || |after| == |records| + 1)
      && (after != records <==> r.Ok? && sent.Some?)
      && (after != records ==>
            && after[..|records|] == records
            && after[|records|] == AnalysisRecord(newId, publicationId, r.value, Some(if Truthy(llm.model) then llm.model.value else DefaultModel), now))
  {
    var (r, after, sent) := AnalysisOutcome(records, publicationId, loaded, force, apiKey, llm, newId, now);
    if after != records {
      assert (records + [after[|records|]])[..|records|] == records;
    }
  }

  /** Once an analysis is saved at a time later than every earlier analysis of the
      publication, the next unforced call returns it, asks nothing and saves nothing. */
  lemma {:induction false} SavedAnalysisIsCached(records: seq<AnalysisRecord>, publicationId: string, loaded: Result<PublicationDto>,
                                                 apiKey: Option<string>, llm: LlmOutcome, newId: string, now: int,
                                                 llm2: LlmOutcome, newId2: string, now2: int)
    requires forall j :: 0 <= j < |records| && records[j].publicationId == publicationId ==> records[j].createdAt < now
    requires AnalysisOutcome(records, publicationId, loaded, Some(true), apiKey, llm, newId, now).0.Ok?
    ensures var (r, after, _) := AnalysisOutcome(records, publicationId, loaded, Some(true), apiKey, llm, newId, now);
      AnalysisOutcome(after, publicationId, loaded, None, apiKey, llm2, newId2, now2) == (r, after, None)
  {
    var (r, after, _) := AnalysisOutcome(records, publicationId, loaded, Some(true), apiKey, llm, newId, now);
    Newest.LatestIsNewest(after, ForPublication(publicationId), RecordCreatedAt);
    assert Newest.IsNewest(after, ForPublication(publicationId), RecordCreatedAt, |records|);
  }

  class AnalysisStore {
    /** The `publication_analysis` table, in store order. */
    var records: seq<AnalysisRecord>

    constructor(initial: seq<AnalysisRecord>)
      ensures records == initial
    {
      records := initial;
    }

    /** analyzePublication. `loaded` is what findOne answered for the publication and
        the caller; `sent` is the request put to the model, if any. */
    method AnalyzePublication(publicationId: string, loaded: Result<PublicationDto>, force: Option<bool>,
                              apiKey: Option<string>, llm: LlmOutcome, newId: string, now: int)
      returns (r: Result<AnalysisResult>, sent: Option<AnalysisRequest>)
      modifies this
      ensures (r, records, sent) == AnalysisOutcome(old(records), publicationId, loaded, force, apiKey, llm, newId, now)
    {
      sent := None;
      if loaded.Err? {
        return Err(NotFound), sent;
      }
      var forced := force.Some? && force.value;
      if !forced {
        var cached := Newest.FindLatest(records, ForPublication(publicationId), RecordCreatedAt);
        if cached.Some? {
          return Ok(records[cached.value].result), sent;
        }
      }
      if !Truthy(apiKey) {
        return Err(ServiceUnavailable(ApiKeyMissing)), sent;
      }
      sent := Some(RequestFor(loaded.value));
      match llm {
        case LlmThrew(status, code) =>
          return Err(LlmFailure(status, code)), sent;
        case LlmAnswered(content, model, parsed) =>
          if !Truthy(content) || parsed.None? {
            return Err(Unhandled), sent;
          }
          var record := AnalysisRecord(newId, publicationId, parsed.value,
                                       Some(if Truthy(model) then model.value else DefaultModel), now);
          records := records + [record];
          return Ok(parsed.value), sent;
      }
    }
  }
}
