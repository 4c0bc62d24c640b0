/**
 * In-memory lineage tracking of each query (`src/utils/lineage.py`): a trace
 * per query holding its answer, the sources it cited, its latency and its
 * token count, and the citation strings built from those sources.
 *
 * The random trace id (`uuid4`) and the clock reading (`time.time`) are
 * parameters of `StartTrace`. Latency and start time are `real`s: no
 * floating-point rounding is modelled.
 */
module Lineage {
  import opened Sources

  /** `QueryLineage`: a trace whose fields the tracker updates in place. */
  class Trace {
    var lineageId: string
    var query: string
    var answer: string
    var sources: seq<Source>
    var startTime: real
    var latencyMs: real
    var tokensUsed: int

    /** A trace as `QueryLineage(lineage_id=…, query=…)` builds it: no answer,
        no sources, no latency, no tokens yet. */
    constructor(lineageId: string, query: string, now: real)
      ensures this.lineageId == lineageId && this.query == query && startTime == now
      ensures answer == "" && sources == [] && latencyMs == 0.0 && tokensUsed == 0
    {
      this.lineageId := lineageId;
      this.query := query;
      answer := "";
      sources := [];
      startTime := now;
      latencyMs := 0.0;
      tokensUsed := 0;
    }
  }

  /** `src.get(key, default)` */
  function Get(src: Source, key: string, default: string): string {
    if key in src then src[key] else default
  }

  const SectionWord: string := "दफा"
  const ClauseWord: string := "खण्ड"

  /** The act title, or "Unknown". */
  function ActOf(src: Source): string { Get(src, "act_title", "Unknown") }
  /** The section number, or "??". */
  function SectionOf(src: Source): string { Get(src, "section_number", "??") }
  /** The clause number, or "" (no clause). */
  function ClauseOf(src: Source): string { Get(src, "clause_number", "") }

  /** The citation of a source without its clause: "<act>, दफा <section>". */
  function SectionCitation(src: Source): string {
    ActOf(src) + ", " + SectionWord + " " + SectionOf(src)
  }

  /** The citation of one source (`get_citation_path`, one iteration). */
  function Citation(src: Source): string {
    if ClauseOf(src) != "" then SectionCitation(src) + ", " + ClauseWord + " " + ClauseOf(src)
    else SectionCitation(src)
  }

  /** A citation is the act and section, followed by ", खण्ड <clause>"
      exactly when the source names a clause. */
  lemma CitationShape(src: Source)
    ensures var r := Citation(src);
            && |SectionCitation(src)| <= |r| && r[..|SectionCitation(src)|] == SectionCitation(src)
            && (ClauseOf(src) == "" <==> r == SectionCitation(src))
            && (ClauseOf(src) != "" ==> r[|SectionCitation(src)|..] == ", " + ClauseWord + " " + ClauseOf(src))
  {
  }

  /** A source without any of the three keys is cited as "Unknown, दफा ??". */
  lemma EmptySourceCitation()
    ensures Citation(map[]) == "Unknown, दफा ??"
  {
    assert ClauseOf(map[]) == "";
  }

  /** `LineageTracker` */
  class LineageTracker {
    /** trace id -> trace */
    var traces: map<string, Trace>

    constructor()
      ensures traces == map[]
    {
      traces := map[];
    }

    /** `start_trace`: a new trace for the query, stored under its id and
        returned. The number of traces grows by one unless the random id was
        already in use, in which case the older trace is replaced. */
    method StartTrace(freshId: string, query: string, now: real) returns (trace: Trace)
      modifies this
      ensures fresh(trace)
      ensures trace.lineageId == freshId && trace.query == query && trace.startTime == now
      ensures trace.answer == "" && trace.sources == [] && trace.latencyMs == 0.0 && trace.tokensUsed == 0
      ensures traces == old(traces)[freshId := trace]
      ensures TotalTraces() == old(TotalTraces()) + (if freshId in old(traces) then 0 else 1)
    {
      trace := new Trace(freshId, query, now);
      traces := traces[freshId := trace];
    }

    /** `add_sources`: the sources are appended to the trace, in order; the
        trace's other fields and the tracker are left as they were. */
    method AddSources(trace: Trace, sources: seq<Source>)
      modifies trace
      ensures trace.sources == old(trace.sources) + sources
      ensures trace.lineageId == old(trace.lineageId) && trace.query == old(trace.query)
      ensures trace.answer == old(trace.answer) && trace.startTime == old(trace.startTime)
      ensures trace.latencyMs == old(trace.latencyMs) && trace.tokensUsed == old(trace.tokensUsed)
    {
      trace.sources := trace.sources + sources;
    }

    /** `complete_trace`: records the answer, latency and token count; the
        query, sources, id and start time are left as they were. */
    method CompleteTrace(trace: Trace, answer: string, latencyMs: real, tokens: int)
      modifies trace
      ensures trace.answer == answer && trace.latencyMs == latencyMs && trace.tokensUsed == tokens
      ensures trace.lineageId == old(trace.lineageId) && trace.query == old(trace.query)
      ensures trace.sources == old(trace.sources) && trace.startTime == old(trace.startTime)
    {
      trace.answer := answer;
      trace.latencyMs := latencyMs;
      trace.tokensUsed := tokens;
    }

    /** `get_citation_path`: one citation per source of the trace, in the
        order the sources were added. */
    method GetCitationPath(trace: Trace) returns (citations: seq<string>)
      ensures |citations| == |trace.sources|
      ensures forall k :: 0 <= k < |citations| ==> citations[k] == Citation(trace.sources[k])
    {
      var sources := trace.sources;
      citations := [];
      var i := 0;
      while i < |sources|
        invariant 0 <= i <= |sources|
        invariant |citations| == i
        invariant forall k :: 0 <= k < i ==> citations[k] == Citation(sources[k])
      {
        var citation := CiteSource(sources[i]);
        citations := citations + [citation];
        i := i + 1;
      }
    }

    /** The body of `get_citation_path`'s loop, for one source. */
    static method CiteSource(src: Source) returns (citation: string)
      ensures citation == Citation(src)
    {
      var act := Get(src, "act_title", "Unknown");
      var section := Get(src, "section_number", "??");
      var clause := Get(src, "clause_number", "");
      if clause != "" {
        citation := act + ", " + SectionWord + " " + section + ", " + ClauseWord + " " + clause;
      } else {
        citation := act + ", " + SectionWord + " " + section;
      }
    }

    /** `get_stats()["total_traces"]` */
    function TotalTraces(): nat
      reads this
    {
      |traces|
    }
  }
}
