/**
 Validating a run result against its directory, and normalizing it so that its status and limits admit what
 the validation found. The file system is a set of existing paths and a set of paths that hold a JSON object.
 */
module RunValidator {

  datatype RunStatus = COMPLETED | COMPLETED_WITH_LIMITS | DEGRADED | FAILED

  datatype LayerStatus = LAYER_READY | LAYER_ABSENT | LAYER_SKIPPED | LAYER_PARTIAL | LAYER_DEGRADED | LAYER_FAILED

  datatype Severity = INFO | WARNING | ERROR

  /** Issue codes: those of the validator, those of the result builder, and any other a result may carry. */
  datatype Code =
    | REQUIRED_ARTIFACT_MISSING | DECLARED_ARTIFACT_MISSING
    | FACTUAL_READY_WITHOUT_SNAPSHOT | SNAPSHOT_MISSING | SCHEMA_MISSING
    | FACTUAL_FAILED_BUT_RUN_COMPLETED | SCAN_ERRORS_MISSING_ISSUE
    | RUNTIME_READY_WITHOUT_EVENTS | RUNTIME_ZERO_NOT_ABSENT | RUNTIME_ABSENT_MISSING_LIMIT
    | ENRICHMENT_READY_WITHOUT_PROVIDER | MODULE_FINDINGS_DIR_MISSING
    | REPORT_READY_WITHOUT_PATH | REPORT_MISSING | REPORT_INVALID_JSON
    | TOP_STATUS_TOO_OPTIMISTIC
    | RUNTIME_ABSENT | OFFLINE_MODE | LLM_PROVIDER_UNCONFIGURED | SCAN_ERRORS_PRESENT
    | OTHER(name: string)

  datatype Finding = Finding(code: Code, severity: Severity, path: string)

  datatype Issue = Issue(code: Code, severity: Severity)

  /** An absent path is the empty string: both are falsy. */
  datatype ArtifactRef = ArtifactRef(path: string, required: bool)
  datatype FactualLayer = FactualLayer(status: LayerStatus, scanErrors: nat, snapshotPath: string, schemaPath: string)
  datatype RuntimeLayer = RuntimeLayer(status: LayerStatus, runtimeEventCount: nat)
  datatype EnrichmentLayer = EnrichmentLayer(status: LayerStatus, providerConfigured: bool, moduleFindingsDir: string)
  datatype ReportLayer = ReportLayer(status: LayerStatus, reportPath: string)

  datatype RunData = RunData(status: RunStatus, artifacts: seq<ArtifactRef>, factual: FactualLayer, runtime: RuntimeLayer,
                             enrichment: EnrichmentLayer, report: ReportLayer, limits: seq<Issue>)

  datatype Files = Files(existing: set<string>, jsonObjects: set<string>)

  // ---------------------------------------------------------------- what is found

  function If(condition: bool, code: Code, severity: Severity, path: string): seq<Finding> {
    if condition then [Finding(code, severity, path)] else []
  }

  predicate HasIssue(limits: seq<Issue>, code: Code) {
    exists i | 0 <= i < |limits| :: limits[i].code == code
  }

  function ArtifactFinding(files: Files, a: ArtifactRef): seq<Finding> {
    if a.required && a.path !in files.existing then [Finding(REQUIRED_ARTIFACT_MISSING, ERROR, a.path)]
    else if !a.required && a.path != "" && a.path !in files.existing then [Finding(DECLARED_ARTIFACT_MISSING, WARNING, a.path)]
    else []
  }

  function ArtifactFindings(files: Files, artifacts: seq<ArtifactRef>): seq<Finding> {
    if artifacts == [] then []
    else ArtifactFindings(files, artifacts[..|artifacts| - 1]) + ArtifactFinding(files, artifacts[|artifacts| - 1])
  }

  function FactualFindings(files: Files, r: RunData): seq<Finding> {
    var f := r.factual;
    If(f.status == LAYER_READY && f.snapshotPath == "", FACTUAL_READY_WITHOUT_SNAPSHOT, ERROR, "")
    + If(f.snapshotPath != "" && f.snapshotPath !in files.existing, SNAPSHOT_MISSING, ERROR, f.snapshotPath)
    + If(f.schemaPath != "" && f.schemaPath !in files.existing, SCHEMA_MISSING, ERROR, f.schemaPath)
    + If(f.status == LAYER_FAILED && r.status == COMPLETED, FACTUAL_FAILED_BUT_RUN_COMPLETED, ERROR, "")
    + If(f.scanErrors > 0 && r.status == COMPLETED && !HasIssue(r.limits, SCAN_ERRORS_PRESENT), SCAN_ERRORS_MISSING_ISSUE, WARNING, "")
  }

  function RuntimeFindings(r: RunData): seq<Finding> {
    var t := r.runtime;
    If(t.status == LAYER_READY && t.runtimeEventCount == 0, RUNTIME_READY_WITHOUT_EVENTS, WARNING, "")
    + If(t.runtimeEventCount == 0 && t.status != LAYER_ABSENT, RUNTIME_ZERO_NOT_ABSENT, WARNING, "")
    + If(t.runtimeEventCount == 0 && !HasIssue(r.limits, RUNTIME_ABSENT), RUNTIME_ABSENT_MISSING_LIMIT, WARNING, "")
  }

  function EnrichmentFindings(files: Files, r: RunData): seq<Finding> {
    var e := r.enrichment;
    If(e.status == LAYER_READY && !e.providerConfigured, ENRICHMENT_READY_WITHOUT_PROVIDER, ERROR, "")
    + If(e.moduleFindingsDir != "" && e.moduleFindingsDir !in files.existing, MODULE_FINDINGS_DIR_MISSING,
         if e.status == LAYER_READY then ERROR else WARNING, e.moduleFindingsDir)
  }

  function ReportFindings(files: Files, r: RunData): seq<Finding> {
    var p := r.report;
    if p.status != LAYER_READY then []
    else if p.reportPath == "" then [Finding(REPORT_READY_WITHOUT_PATH, ERROR, "")]
    else if p.reportPath !in files.existing then [Finding(REPORT_MISSING, ERROR, p.reportPath)]
    else if p.reportPath !in files.jsonObjects then [Finding(REPORT_INVALID_JSON, ERROR, p.reportPath)]
    else []
  }

  function LayerFindings(files: Files, r: RunData): seq<Finding> {
    ArtifactFindings(files, r.artifacts) + FactualFindings(files, r) + RuntimeFindings(r) + EnrichmentFindings(files, r)
    + ReportFindings(files, r)
  }

  predicate HasErrors(findings: seq<Finding>) {
    exists i | 0 <= i < |findings| :: findings[i].severity == ERROR
  }

  function Findings(files: Files, r: RunData): seq<Finding> {
    var found := LayerFindings(files, r);
    found + If(HasErrors(found) && r.status == COMPLETED, TOP_STATUS_TOO_OPTIMISTIC, ERROR, "")
  }

  // ---------------------------------------------------------------- normalizing

  /** Findings whose code is not listed yet become issues, in order. */
  function WithFindings(limits: seq<Issue>, findings: seq<Finding>): seq<Issue> {
    if findings == [] then limits
    else
      var before := WithFindings(limits, findings[..|findings| - 1]);
      var f := findings[|findings| - 1];
      if HasIssue(before, f.code) then before else before + [Issue(f.code, f.severity)]
  }

  function Normalized(r: RunData, findings: seq<Finding>): RunData {
    r.(limits := WithFindings(r.limits, findings),
       status := if HasErrors(findings) then (if r.factual.status == LAYER_FAILED then FAILED else DEGRADED)
                 else if findings != [] && r.status == COMPLETED then COMPLETED_WITH_LIMITS
                 else r.status)
  }

  class RunResult {
    var status: RunStatus
    const artifacts: seq<ArtifactRef>
    const factual: FactualLayer
    const runtime: RuntimeLayer
    const enrichment: EnrichmentLayer
    const report: ReportLayer
    var limits: seq<Issue>

    constructor (r: RunData)
      ensures View() == r
    {
      status, artifacts, factual, runtime := r.status, r.artifacts, r.factual, r.runtime;
      enrichment, report, limits := r.enrichment, r.report, r.limits;
    }

    function View(): RunData
      reads this
    {
      RunData(status, artifacts, factual, runtime, enrichment, report, limits)
    }

    method CheckFactual(files: Files) returns (findings: seq<Finding>)
      ensures findings == FactualFindings(files, View())
    {
      findings := [];
      if factual.status == LAYER_READY && factual.snapshotPath == "" {
        findings := findings + [Finding(FACTUAL_READY_WITHOUT_SNAPSHOT, ERROR, "")];
      }
      if factual.snapshotPath != "" && factual.snapshotPath !in files.existing {
        findings := findings + [Finding(SNAPSHOT_MISSING, ERROR, factual.snapshotPath)];
      }
      if factual.schemaPath != "" && factual.schemaPath !in files.existing {
        findings := findings + [Finding(SCHEMA_MISSING, ERROR, factual.schemaPath)];
      }
      if factual.status == LAYER_FAILED && status == COMPLETED {
        findings := findings + [Finding(FACTUAL_FAILED_BUT_RUN_COMPLETED, ERROR, "")];
      }
      if factual.scanErrors > 0 && status == COMPLETED && !HasIssue(limits, SCAN_ERRORS_PRESENT) {
        findings := findings + [Finding(SCAN_ERRORS_MISSING_ISSUE, WARNING, "")];
      }
    }

    method CheckRuntime() returns (findings: seq<Finding>)
      ensures findings == RuntimeFindings(View())
    {
      findings := [];
      if runtime.status == LAYER_READY && runtime.runtimeEventCount == 0 {
        findings := findings + [Finding(RUNTIME_READY_WITHOUT_EVENTS, WARNING, "")];
      }
      if runtime.runtimeEventCount == 0 && runtime.status != LAYER_ABSENT {
        findings := findings + [Finding(RUNTIME_ZERO_NOT_ABSENT, WARNING, "")];
      }
      if runtime.runtimeEventCount == 0 && !HasIssue(limits, RUNTIME_ABSENT) {
        findings := findings + [Finding(RUNTIME_ABSENT_MISSING_LIMIT, WARNING, "")];
      }
    }

    method CheckEnrichment(files: Files) returns (findings: seq<Finding>)
      ensures findings == EnrichmentFindings(files, View())
    {
      findings := [];
      if enrichment.status == LAYER_READY && !enrichment.providerConfigured {
        findings := findings + [Finding(ENRICHMENT_READY_WITHOUT_PROVIDER, ERROR, "")];
      }
      if enrichment.moduleFindingsDir != "" && enrichment.moduleFindingsDir !in files.existing {
        var severity := if enrichment.status == LAYER_READY then ERROR else WARNING;
        findings := findings + [Finding(MODULE_FINDINGS_DIR_MISSING, severity, enrichment.moduleFindingsDir)];
      }
    }

    method CheckReport(files: Files) returns (findings: seq<Finding>)
      ensures findings == ReportFindings(files, View())
    {
      findings := [];
      if report.status == LAYER_READY {
        if report.reportPath == "" {
          findings := [Finding(REPORT_READY_WITHOUT_PATH, ERROR, "")];
        } else if report.reportPath !in files.existing {
          findings := [Finding(REPORT_MISSING, ERROR, report.reportPath)];
        } else if report.reportPath !in files.jsonObjects {
          findings := [Finding(REPORT_INVALID_JSON, ERROR, report.reportPath)];
        }
      }
    }

    method Validate(files: Files) returns (findings: seq<Finding>)
      ensures findings == Findings(files, View())
    {
      findings := [];
      for i := 0 to |artifacts|
        invariant findings == ArtifactFindings(files, artifacts[..i])
      {
        var artifact := artifacts[i];
        assert artifacts[..i + 1][..i] == artifacts[..i];
        if artifact.required && artifact.path !in files.existing {
          findings := findings + [Finding(REQUIRED_ARTIFACT_MISSING, ERROR, artifact.path)];
        } else if !artifact.required && artifact.path != "" && artifact.path !in files.existing {
          findings := findings + [Finding(DECLARED_ARTIFACT_MISSING, WARNING, artifact.path)];
        }
      }
      assert artifacts[..|artifacts|] == artifacts;
      var factualFindings := CheckFactual(files);
      findings := findings + factualFindings;
      var runtimeFindings := CheckRuntime();
      findings := findings + runtimeFindings;
      var enrichmentFindings := CheckEnrichment(files);
      findings := findings + enrichmentFindings;
      var reportFindings := CheckReport(files);
      findings := findings + reportFindings;
      if HasErrors(findings) && status == COMPLETED {
        findings := findings + [Finding(TOP_STATUS_TOO_OPTIMISTIC, ERROR, "")];
      }
    }

    method Normalize(findings: seq<Finding>)
      modifies this
      ensures View() == Normalized(old(View()), findings)
    {
      var existingCodes := set i | 0 <= i < |limits| :: limits[i].code;
      for i := 0 to |findings|
        invariant limits == WithFindings(old(limits), findings[..i]) && status == old(status)
        invariant forall c :: c in existingCodes <==> HasIssue(limits, c)
      {
        assert findings[..i + 1][..i] == findings[..i];
        var finding := findings[i];
        if finding.code !in existingCodes {
          IssueAppended(limits, Issue(finding.code, finding.severity));
          limits := limits + [Issue(finding.code, finding.severity)];
          existingCodes := existingCodes + {finding.code};
        }
      }
      assert findings[..|findings|] == findings;
      if HasErrors(findings) {
        status := if factual.status == LAYER_FAILED then FAILED else DEGRADED;
      } else if findings != [] && status == COMPLETED {
        status := COMPLETED_WITH_LIMITS;
      }
    }
  }

  lemma IssueAppended(limits: seq<Issue>, issue: Issue)
    ensures forall c :: HasIssue(limits + [issue], c) <==> HasIssue(limits, c) || c == issue.code
  {
    var more := limits + [issue];
    forall c ensures HasIssue(more, c) <==> HasIssue(limits, c) || c == issue.code {
      if HasIssue(limits, c) {
        var i :| 0 <= i < |limits| && limits[i].code == c;
        assert more[i].code == c;
      }
      if c == issue.code { assert more[|limits|].code == c; }
    }
  }

  // ---------------------------------------------------------------- main results

  ghost predicate FoundCode(findings: seq<Finding>, code: Code) {
    exists f :: f in findings && f.code == code
  }

  /** Limits only grow, and by exactly the codes found. */
  lemma {:induction false} LimitsGrowByFindings(limits: seq<Issue>, findings: seq<Finding>)
    ensures limits <= WithFindings(limits, findings)
    ensures forall c :: HasIssue(WithFindings(limits, findings), c) <==> HasIssue(limits, c) || FoundCode(findings, c)
  {
    if findings != [] {
      var n := |findings| - 1;
      var before := WithFindings(limits, findings[..n]);
      LimitsGrowByFindings(limits, findings[..n]);
      IssueAppended(before, Issue(findings[n].code, findings[n].severity));
      assert findings == findings[..n] + [findings[n]];
      forall c ensures FoundCode(findings, c) <==> FoundCode(findings[..n], c) || c == findings[n].code {
        if FoundCode(findings[..n], c) {
          var f :| f in findings[..n] && f.code == c;
          assert f in findings;
        }
        assert findings[n] in findings;
      }
    }
  }

  /** Each new limit is a finding with its severity, and its code was not listed before. */
  lemma {:induction false} NewLimitsAreFindings(limits: seq<Issue>, findings: seq<Finding>, i: nat)
    requires |limits| <= i < |WithFindings(limits, findings)|
    ensures var all := WithFindings(limits, findings);
            && (exists f :: f in findings && all[i] == Issue(f.code, f.severity))
            && forall k | 0 <= k < i :: all[k].code != all[i].code
  {
    var n := |findings| - 1;
    var before, f := WithFindings(limits, findings[..n]), findings[n];
    assert f in findings;
    if i < |before| {
      NewLimitsAreFindings(limits, findings[..n], i);
      assert WithFindings(limits, findings)[..|before|] == before;
    } else {
      assert !HasIssue(before, f.code);
    }
  }

  lemma {:induction false} NothingNewToAdd(limits: seq<Issue>, findings: seq<Finding>)
    requires forall f | f in findings :: HasIssue(limits, f.code)
    ensures WithFindings(limits, findings) == limits
  {
    if findings != [] {
      var n := |findings| - 1;
      assert findings[n] in findings;
      NothingNewToAdd(limits, findings[..n]);
    }
  }

  lemma {:induction false} ArtifactCodes(files: Files, artifacts: seq<ArtifactRef>)
    ensures forall f | f in ArtifactFindings(files, artifacts) :: f.code == REQUIRED_ARTIFACT_MISSING || f.code == DECLARED_ARTIFACT_MISSING
  {
    if artifacts != [] { ArtifactCodes(files, artifacts[..|artifacts| - 1]); }
  }

  /** A result that is no longer COMPLETED, and admits at least as much, is found no worse. */
  lemma FindingsShrink(files: Files, r: RunData, s: RunData)
    requires s == r.(status := s.status, limits := s.limits) && s.status != COMPLETED
    requires forall c :: HasIssue(r.limits, c) ==> HasIssue(s.limits, c)
    ensures forall f | f in Findings(files, s) :: f in Findings(files, r)
    ensures HasErrors(Findings(files, s)) ==> HasErrors(Findings(files, r))
  {
    assert LayerFindings(files, s) == Findings(files, s);
    forall f | f in Findings(files, s) ensures f in LayerFindings(files, r) && f in Findings(files, r) {
      if f in ArtifactFindings(files, s.artifacts) {
      } else if f in FactualFindings(files, s) {
        assert f in FactualFindings(files, r);
      } else if f in RuntimeFindings(s) {
        assert f in RuntimeFindings(r);
      }
    }
    if HasErrors(Findings(files, s)) {
      var i :| 0 <= i < |Findings(files, s)| && Findings(files, s)[i].severity == ERROR;
      assert Findings(files, s)[i] in Findings(files, r);
    }
  }

  /** Validate and normalize is a fixpoint: doing it again adds no issue and changes no status. */
  lemma NormalizeIsFixpoint(files: Files, r: RunData)
    ensures var s := Normalized(r, Findings(files, r));
            && Normalized(s, Findings(files, s)) == s
            && forall f | f in Findings(files, s) :: HasIssue(s.limits, f.code)
  {
    var found := Findings(files, r);
    var s := Normalized(r, found);
    if found == [] {
      assert s == r;
    } else {
      LimitsGrowByFindings(r.limits, found);
      FindingsShrink(files, r, s);
      forall f | f in Findings(files, s) ensures HasIssue(s.limits, f.code) { assert FoundCode(found, f.code); }
      NothingNewToAdd(s.limits, Findings(files, s));
    }
  }

  /** What each finding means. */
  ghost predicate Justified(files: Files, r: RunData, f: Finding) {
    match f.code
    case REQUIRED_ARTIFACT_MISSING => f.severity == ERROR && f.path !in files.existing && ArtifactRef(f.path, true) in r.artifacts
    case DECLARED_ARTIFACT_MISSING =>
      f.severity == WARNING && f.path != "" && f.path !in files.existing && ArtifactRef(f.path, false) in r.artifacts
    case FACTUAL_READY_WITHOUT_SNAPSHOT =>
      f.severity == ERROR && f.path == r.factual.snapshotPath == "" && r.factual.status == LAYER_READY
    case SNAPSHOT_MISSING => f.severity == ERROR && f.path == r.factual.snapshotPath != "" && f.path !in files.existing
    case SCHEMA_MISSING => f.severity == ERROR && f.path == r.factual.schemaPath != "" && f.path !in files.existing
    case FACTUAL_FAILED_BUT_RUN_COMPLETED =>
      f.severity == ERROR && f.path == "" && r.factual.status == LAYER_FAILED && r.status == COMPLETED
    case SCAN_ERRORS_MISSING_ISSUE =>
      && f.severity == WARNING && f.path == "" && r.factual.scanErrors > 0 && r.status == COMPLETED
      && forall x | x in r.limits :: x.code != SCAN_ERRORS_PRESENT
    case RUNTIME_READY_WITHOUT_EVENTS =>
      f.severity == WARNING && f.path == "" && r.runtime == RuntimeLayer(LAYER_READY, 0)
    case RUNTIME_ZERO_NOT_ABSENT =>
      f.severity == WARNING && f.path == "" && r.runtime.runtimeEventCount == 0 && r.runtime.status != LAYER_ABSENT
    case RUNTIME_ABSENT_MISSING_LIMIT =>
      && f.severity == WARNING && f.path == "" && r.runtime.runtimeEventCount == 0
      && forall x | x in r.limits :: x.code != RUNTIME_ABSENT
    case ENRICHMENT_READY_WITHOUT_PROVIDER =>
      f.severity == ERROR && f.path == "" && r.enrichment.status == LAYER_READY && !r.enrichment.providerConfigured
    case MODULE_FINDINGS_DIR_MISSING =>
      && f.path == r.enrichment.moduleFindingsDir != "" && f.path !in files.existing
      && f.severity == (if r.enrichment.status == LAYER_READY then ERROR else WARNING)
    case REPORT_READY_WITHOUT_PATH => f.severity == ERROR && f.path == "" && r.report == ReportLayer(LAYER_READY, "")
    case REPORT_MISSING => f.severity == ERROR && f.path != "" && r.report == ReportLayer(LAYER_READY, f.path) && f.path !in files.existing
    case REPORT_INVALID_JSON =>
      && f.severity == ERROR && f.path != "" && r.report == ReportLayer(LAYER_READY, f.path)
      && f.path in files.existing && f.path !in files.jsonObjects
    case _ => false
  }

  lemma {:induction false} ArtifactsJustified(files: Files, artifacts: seq<ArtifactRef>, f: Finding)
    ensures f in ArtifactFindings(files, artifacts) <==>
            || (f.code == REQUIRED_ARTIFACT_MISSING && f.severity == ERROR && f.path !in files.existing
                && ArtifactRef(f.path, true) in artifacts)
            || (f.code == DECLARED_ARTIFACT_MISSING && f.severity == WARNING && f.path != "" && f.path !in files.existing
                && ArtifactRef(f.path, false) in artifacts)
  {
    if artifacts != [] {
      var n := |artifacts| - 1;
      ArtifactsJustified(files, artifacts[..n], f);
      assert artifacts == artifacts[..n] + [artifacts[n]];
    }
  }

  lemma NoIssue(limits: seq<Issue>, code: Code)
    ensures HasIssue(limits, code) <==> exists x :: x in limits && x.code == code
  {
    if HasIssue(limits, code) {
      var i :| 0 <= i < |limits| && limits[i].code == code;
      assert limits[i] in limits;
    }
  }

  /** Exactly the justified findings are made, and the one about the top status when any of them is an error. */
  lemma FindingsExactly(files: Files, r: RunData, f: Finding)
    ensures f.code != TOP_STATUS_TOO_OPTIMISTIC ==> (f in Findings(files, r) <==> Justified(files, r, f))
    ensures f.code == TOP_STATUS_TOO_OPTIMISTIC ==>
              (f in Findings(files, r) <==>
                 && f.severity == ERROR && f.path == "" && r.status == COMPLETED
                 && exists g :: Justified(files, r, g) && g.severity == ERROR)
  {
    LayersJustified(files, r);
    var found := LayerFindings(files, r);
    assert f.code == TOP_STATUS_TOO_OPTIMISTIC ==> !Justified(files, r, f);
    hide LayerFindings, Justified;
    ErrorAmong(found);
  }

  lemma ErrorAmong(findings: seq<Finding>)
    ensures HasErrors(findings) <==> exists g :: g in findings && g.severity == ERROR
  {
    if HasErrors(findings) {
      var i :| 0 <= i < |findings| && findings[i].severity == ERROR;
      assert findings[i] in findings;
    }
  }

  lemma LayersJustified(files: Files, r: RunData)
    ensures forall f :: f in LayerFindings(files, r) <==> Justified(files, r, f)
  {
    forall f ensures f in LayerFindings(files, r) <==> Justified(files, r, f) {
      hide FactualFindings, RuntimeFindings, EnrichmentFindings, ReportFindings, ArtifactFindings, HasIssue;
      ArtifactsJustified(files, r.artifacts, f);
      FactualJustified(files, r, f);
      RuntimeJustified(r, f);
      EnrichmentJustified(files, r, f);
      ReportJustified(files, r, f);
      NoIssue(r.limits, SCAN_ERRORS_PRESENT);
      NoIssue(r.limits, RUNTIME_ABSENT);
    }
  }

  lemma FactualJustified(files: Files, r: RunData, f: Finding)
    ensures f in FactualFindings(files, r) <==>
            match f.code
            case FACTUAL_READY_WITHOUT_SNAPSHOT =>
              f.severity == ERROR && f.path == r.factual.snapshotPath == "" && r.factual.status == LAYER_READY
            case SNAPSHOT_MISSING => f.severity == ERROR && f.path == r.factual.snapshotPath != "" && f.path !in files.existing
            case SCHEMA_MISSING => f.severity == ERROR && f.path == r.factual.schemaPath != "" && f.path !in files.existing
            case FACTUAL_FAILED_BUT_RUN_COMPLETED =>
              f.severity == ERROR && f.path == "" && r.factual.status == LAYER_FAILED && r.status == COMPLETED
            case SCAN_ERRORS_MISSING_ISSUE =>
              && f.severity == WARNING && f.path == "" && r.factual.scanErrors > 0 && r.status == COMPLETED
              && !HasIssue(r.limits, SCAN_ERRORS_PRESENT)
            case _ => false
  {
    hide HasIssue;
  }

  lemma RuntimeJustified(r: RunData, f: Finding)
    ensures f in RuntimeFindings(r) <==>
            && f.severity == WARNING && f.path == "" && r.runtime.runtimeEventCount == 0
            && match f.code
               case RUNTIME_READY_WITHOUT_EVENTS => r.runtime.status == LAYER_READY
               case RUNTIME_ZERO_NOT_ABSENT => r.runtime.status != LAYER_ABSENT
               case RUNTIME_ABSENT_MISSING_LIMIT => !HasIssue(r.limits, RUNTIME_ABSENT)
               case _ => false
  {
    hide HasIssue;
  }

  lemma EnrichmentJustified(files: Files, r: RunData, f: Finding)
    ensures f in EnrichmentFindings(files, r) <==>
            match f.code
            case ENRICHMENT_READY_WITHOUT_PROVIDER =>
              f.severity == ERROR && f.path == "" && r.enrichment.status == LAYER_READY && !r.enrichment.providerConfigured
            case MODULE_FINDINGS_DIR_MISSING =>
              && f.path == r.enrichment.moduleFindingsDir != "" && f.path !in files.existing
              && f.severity == (if r.enrichment.status == LAYER_READY then ERROR else WARNING)
            case _ => false
  {
  }

  lemma ReportJustified(files: Files, r: RunData, f: Finding)
    ensures f in ReportFindings(files, r) <==>
            && f.severity == ERROR && r.report == ReportLayer(LAYER_READY, f.path)
            && match f.code
               case REPORT_READY_WITHOUT_PATH => f.path == ""
               case REPORT_MISSING => f.path != "" && f.path !in files.existing
               case REPORT_INVALID_JSON => f.path != "" && f.path in files.existing && f.path !in files.jsonObjects
               case _ => false
  {
  }

  /** The status afterwards: errors make it FAILED or DEGRADED, other findings take away COMPLETED. */
  lemma StatusExactly(files: Files, r: RunData)
    ensures var s, error := Normalized(r, Findings(files, r)), exists g :: Justified(files, r, g) && g.severity == ERROR;
            && (s.status == FAILED <==> if error then r.factual.status == LAYER_FAILED else r.status == FAILED)
            && (s.status == DEGRADED <==> if error then r.factual.status != LAYER_FAILED else r.status == DEGRADED)
            && (s.status == COMPLETED <==> r.status == COMPLETED && forall g :: !Justified(files, r, g))
  {
    var found := LayerFindings(files, r);
    LayersJustified(files, r);
    ErrorAmong(found);
    ErrorAmong(Findings(files, r));
    hide LayerFindings, Justified;
    if found != [] { assert Justified(files, r, found[0]) by { assert found[0] in found; } }
  }

  /** A normalized result that is still COMPLETED was COMPLETED without any finding, so every artifact and every path
      it declares exists. */
  lemma CompletedMeansClean(files: Files, r: RunData)
    ensures var s := Normalized(r, Findings(files, r));
            s.status == COMPLETED ==>
              && s == r && Findings(files, s) == []
              && (forall i | 0 <= i < |s.artifacts| && (s.artifacts[i].required || s.artifacts[i].path != "") ::
                    s.artifacts[i].path in files.existing)
              && (s.report.status == LAYER_READY ==> s.report.reportPath in files.jsonObjects)
              && (s.factual.snapshotPath != "" ==> s.factual.snapshotPath in files.existing)
              && (s.factual.schemaPath != "" ==> s.factual.schemaPath in files.existing)
              && (s.enrichment.moduleFindingsDir != "" ==> s.enrichment.moduleFindingsDir in files.existing)
              && (s.factual.status == LAYER_READY ==> s.factual.snapshotPath != "") && s.factual.status != LAYER_FAILED
  {
    var s := Normalized(r, Findings(files, r));
    if s.status == COMPLETED {
      assert Findings(files, r) == [];
      assert LayerFindings(files, r) == [];
      assert ArtifactFindings(files, r.artifacts) == [] && ReportFindings(files, r) == [];
      assert FactualFindings(files, r) == [] && EnrichmentFindings(files, r) == [];
      NoArtifactFindings(files, r.artifacts);
    }
  }

  lemma {:induction false} NoArtifactFindings(files: Files, artifacts: seq<ArtifactRef>)
    requires ArtifactFindings(files, artifacts) == []
    ensures forall i | 0 <= i < |artifacts| && (artifacts[i].required || artifacts[i].path != "") :: artifacts[i].path in files.existing
  {
    if artifacts != [] { NoArtifactFindings(files, artifacts[..|artifacts| - 1]); }
  }

  function Optimism(s: RunStatus): nat {
    match s case COMPLETED => 3 case COMPLETED_WITH_LIMITS => 2 case DEGRADED => 1 case FAILED => 0
  }

  /** Normalizing makes a status more optimistic only when a FAILED run has errors but its factual layer did not fail. */
  lemma NeverMoreOptimistic(files: Files, r: RunData)
    ensures Optimism(Normalized(r, Findings(files, r)).status) > Optimism(r.status) <==>
            r.status == FAILED && HasErrors(Findings(files, r)) && r.factual.status != LAYER_FAILED
  {
    var found := Findings(files, r);
    if found == [] { assert !HasErrors(found); }
  }
}
