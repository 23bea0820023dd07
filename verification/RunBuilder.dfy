/** Building the result of a full local analysis run, and why its own validator can only object to files. */
module RunBuilder {
  import opened Options
  import opened RunValidator

  datatype RunMode = OFFLINE | ANALYZER_BACKED | ENRICHMENT_REPLAY | FULL

  /** `factual_layer` of the scan summary: absent or not an object, or an object whose event count may be missing. */
  datatype SummaryLayer = NotAnObject | Layer(runtimeEventCount: Option<int>)

  /** `runtime_layer` of the report: an object (also when the key is missing) whose event count is 0 when it is
      missing or null, or something that has no `get`, such as null. */
  datatype ReportRuntime = NO_OBJECT | Events(count: int)

  /** `report` is None when it is empty. */
  datatype Inputs = Inputs(enrich: bool, mode: RunMode, modulesScanned: int, scanErrors: int, summaryLayer: SummaryLayer,
                           report: Option<ReportRuntime>, providerConfigured: bool, llmStatusPresent: bool, findingsDirExists: bool)

  /** `int(None)` raises TypeError, `.get` on no object AttributeError; a negative count is refused by the result
      model. */
  datatype Outcome = Built(result: RunData) | TypeError | AttributeError | NegativeCount

  const STATIC_SNAPSHOT_PATH := "static_snapshot.json"
  const SUMMARY_PATH := "summary.json"
  const PROGRESS_LOG_PATH := "logs/progress.log"
  const LLM_STATUS_PATH := "llm_status.json"
  const SCHEMA_PATH := "schema.json"
  const REPORT_PATH := "report.json"
  const MODULE_FINDINGS_PATH := "module_findings"

  predicate NoSummaryCount(i: Inputs) { i.summaryLayer.Layer? && i.summaryLayer.runtimeEventCount.None? }

  /** The report's count, unless it is zero, else the summary's; none when either cannot be read. */
  function RuntimeCount(i: Inputs): Option<int> {
    if NoSummaryCount(i) || i.report == Some(NO_OBJECT) then None
    else
      var fromSummary := if i.summaryLayer.NotAnObject? then 0 else i.summaryLayer.runtimeEventCount.value;
      Some(if i.report.Some? && i.report.value.count != 0 then i.report.value.count else fromSummary)
  }

  /** The limits known before scan errors are looked at; any of them keeps the run from being COMPLETED. */
  method LimitsBeforeScanErrors(i: Inputs, runtimeCount: int) returns (limits: seq<Issue>)
    ensures forall c :: HasIssue(limits, c) <==>
              || (c == RUNTIME_ABSENT && runtimeCount == 0)
              || (c == OFFLINE_MODE && i.mode == OFFLINE)
              || (c == LLM_PROVIDER_UNCONFIGURED && i.mode != OFFLINE && !i.providerConfigured)
  {
    limits := [];
    if runtimeCount == 0 {
      IssueAppended(limits, Issue(RUNTIME_ABSENT, INFO));
      limits := limits + [Issue(RUNTIME_ABSENT, INFO)];
    }
    if i.mode == OFFLINE {
      IssueAppended(limits, Issue(OFFLINE_MODE, INFO));
      limits := limits + [Issue(OFFLINE_MODE, INFO)];
    } else if !i.providerConfigured {
      IssueAppended(limits, Issue(LLM_PROVIDER_UNCONFIGURED, INFO));
      limits := limits + [Issue(LLM_PROVIDER_UNCONFIGURED, INFO)];
    }
  }

  method DeclaredArtifacts(i: Inputs) returns (artifacts: seq<ArtifactRef>)
    ensures artifacts == [ArtifactRef(STATIC_SNAPSHOT_PATH, true), ArtifactRef(SUMMARY_PATH, true),
                          ArtifactRef(SCHEMA_PATH, true), ArtifactRef(PROGRESS_LOG_PATH, true)]
                         + (if i.report.Some? then [ArtifactRef(REPORT_PATH, i.mode != OFFLINE)] else [])
                         + (if i.llmStatusPresent then [ArtifactRef(LLM_STATUS_PATH, false)] else [])
  {
    artifacts := [ArtifactRef(STATIC_SNAPSHOT_PATH, true), ArtifactRef(SUMMARY_PATH, true),
                  ArtifactRef(SCHEMA_PATH, true), ArtifactRef(PROGRESS_LOG_PATH, true)];
    if i.report.Some? { artifacts := artifacts + [ArtifactRef(REPORT_PATH, i.mode != OFFLINE)]; }
    if i.llmStatusPresent { artifacts := artifacts + [ArtifactRef(LLM_STATUS_PATH, false)]; }
  }

  method BuildResult(i: Inputs) returns (r: Outcome)
    ensures r.TypeError? <==> NoSummaryCount(i)
    ensures r.AttributeError? <==> !NoSummaryCount(i) && i.report == Some(NO_OBJECT)
    ensures r.NegativeCount? <==> RuntimeCount(i).Some? && (i.scanErrors < 0 || i.modulesScanned < 0 || RuntimeCount(i).value < 0)
    ensures r.Built? ==> Faithful(i, r.result)
  {
    hide HasIssue;
    var runtimeCount := 0;
    match i.summaryLayer {
      case NotAnObject =>
      case Layer(None) => return TypeError;
      case Layer(Some(n)) => runtimeCount := n;
    }
    if i.report.Some? {
      match i.report.value {
        case NO_OBJECT => return AttributeError;
        case Events(n) => if n != 0 { runtimeCount := n; }
      }
    }
    var reportReady := i.report.Some?;
    var offline := i.mode == OFFLINE;
    var limits := LimitsBeforeScanErrors(i, runtimeCount);
    var artifacts := DeclaredArtifacts(i);
    var status := if limits != [] then COMPLETED_WITH_LIMITS else COMPLETED;
    if i.scanErrors != 0 {
      status := DEGRADED;
      IssueAppended(limits, Issue(SCAN_ERRORS_PRESENT, WARNING));
      limits := limits + [Issue(SCAN_ERRORS_PRESENT, WARNING)];
    }
    if i.scanErrors < 0 || i.modulesScanned < 0 || runtimeCount < 0 { return NegativeCount; }
    r := Built(RunData(status, artifacts,
           FactualLayer(if i.scanErrors == 0 then LAYER_READY else LAYER_DEGRADED, i.scanErrors, STATIC_SNAPSHOT_PATH, SCHEMA_PATH),
           RuntimeLayer(if runtimeCount == 0 then LAYER_ABSENT else LAYER_READY, runtimeCount),
           EnrichmentLayer(if i.enrich && i.providerConfigured then LAYER_READY else LAYER_SKIPPED, i.providerConfigured,
                           if i.findingsDirExists then MODULE_FINDINGS_PATH else ""),
           ReportLayer(if reportReady then LAYER_READY else if offline then LAYER_SKIPPED else LAYER_FAILED,
                       if reportReady then REPORT_PATH else ""),
           limits));
  }

  /** The result says of each input what it was. */
  ghost predicate Faithful(i: Inputs, r: RunData) {
    && RuntimeCount(i) == Some(r.runtime.runtimeEventCount) && i.scanErrors == r.factual.scanErrors
    && (r.status == COMPLETED <==> r.limits == [])
    && (r.status == DEGRADED <==> i.scanErrors > 0) && r.status != FAILED
    && (HasIssue(r.limits, RUNTIME_ABSENT) <==> r.runtime.runtimeEventCount == 0)
    && (HasIssue(r.limits, OFFLINE_MODE) <==> i.mode == OFFLINE)
    && (HasIssue(r.limits, LLM_PROVIDER_UNCONFIGURED) <==> i.mode != OFFLINE && !i.providerConfigured)
    && (HasIssue(r.limits, SCAN_ERRORS_PRESENT) <==> i.scanErrors > 0)
    && r.factual == FactualLayer(if i.scanErrors == 0 then LAYER_READY else LAYER_DEGRADED, i.scanErrors,
                                 "static_snapshot.json", "schema.json")
    && (r.runtime.status == if r.runtime.runtimeEventCount == 0 then LAYER_ABSENT else LAYER_READY)
    && (r.enrichment.status == if i.enrich && i.providerConfigured then LAYER_READY else LAYER_SKIPPED)
    && r.enrichment.providerConfigured == i.providerConfigured
    && (r.enrichment.moduleFindingsDir == if i.findingsDirExists then "module_findings" else "")
    && (r.report == if i.report.Some? then ReportLayer(LAYER_READY, "report.json")
                    else ReportLayer(if i.mode == OFFLINE then LAYER_SKIPPED else LAYER_FAILED, ""))
    && r.artifacts == [ArtifactRef("static_snapshot.json", true), ArtifactRef("summary.json", true),
                       ArtifactRef("schema.json", true), ArtifactRef("logs/progress.log", true)]
                      + (if i.report.Some? then [ArtifactRef("report.json", i.mode != OFFLINE)] else [])
                      + (if i.llmStatusPresent then [ArtifactRef("llm_status.json", false)] else [])
  }

  /** The codes that are about files being missing or unreadable. */
  predicate AboutFiles(c: Code) {
    c == REQUIRED_ARTIFACT_MISSING || c == DECLARED_ARTIFACT_MISSING || c == SNAPSHOT_MISSING || c == SCHEMA_MISSING
    || c == MODULE_FINDINGS_DIR_MISSING || c == REPORT_MISSING || c == REPORT_INVALID_JSON
  }

  lemma PathsNotEmpty()
    ensures STATIC_SNAPSHOT_PATH != "" && SCHEMA_PATH != "" && REPORT_PATH != "" && MODULE_FINDINGS_PATH != ""
  {
  }

  /** Whatever the directory looks like later, the validator can object to a built result only for missing or
      invalid files, and for being COMPLETED although one of those is an error; COMPLETED comes with no limits. */
  lemma OnlyFilesCanBeWrong(i: Inputs, r: RunData, files: Files)
    requires Faithful(i, r)
    ensures forall f | f in Findings(files, r) ::
              AboutFiles(f.code) || (f.code == TOP_STATUS_TOO_OPTIMISTIC && r.status == COMPLETED && r.limits == []
                                     && exists g :: g in Findings(files, r) && AboutFiles(g.code) && g.severity == ERROR)
  {
    PathsNotEmpty();
    ArtifactCodes(files, r.artifacts);
    var found := LayerFindings(files, r);
    assert RuntimeFindings(r) == [];
    forall f | f in found ensures AboutFiles(f.code) {
      if f in ArtifactFindings(files, r.artifacts) {
      } else if f in FactualFindings(files, r) {
      } else if f in EnrichmentFindings(files, r) {
      } else {
        assert f in ReportFindings(files, r);
      }
    }
    if HasErrors(found) && r.status == COMPLETED {
      var k :| 0 <= k < |found| && found[k].severity == ERROR;
      assert found[k] in found && found[k] in Findings(files, r) && AboutFiles(found[k].code);
    }
  }
}
