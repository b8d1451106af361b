/** Review runs of review.rs and validation.rs: when a run is valid, and the
    difference between two of them. */
module ReviewRuns {
  import opened Basics
  import opened Text
  import opened Workflow

  datatype AuditKind = DanglingLinks | DuplicateTitles | OrphanNotes | WeaklyIntegratedNotes
  datatype Status = Open | Reviewed | Dismissed | Accepted

  /** What a finding reports. Whether an entry or a step report is valid by itself
      is part of the value. */
  datatype Content =
    | AuditEntry(audit: AuditKind, entry: string, entryIsValid: bool)
    | StepReport(stepId: string, report: string, reportIsValid: bool)

  datatype Finding = Finding(id: string, status: Status, content: Content)

  datatype Origin =
    | AuditRun(audit: AuditKind, limit: nat)
    | WorkflowRun(workflow: Metadata, stepCount: nat, inputs: seq<Assignment>, stepIds: seq<string>)

  datatype Run = Run(metadata: Metadata, origin: Origin, findings: seq<Finding>)

  // ---- Validity ----

  ghost predicate DistinctIds(findings: seq<Finding>) {
    forall i, j :: 0 <= i < j < |findings| ==> findings[i].id != findings[j].id
  }

  ghost predicate DistinctSteps(findings: seq<Finding>) {
    forall i, j :: 0 <= i < j < |findings| && findings[i].content.StepReport? && findings[j].content.StepReport? ==>
      findings[i].content.stepId != findings[j].content.stepId
  }

  predicate FindingFields(finding: Finding) {
    && IsIdentifier(finding.id)
    && if finding.content.AuditEntry? then finding.content.entryIsValid else finding.content.reportIsValid
  }

  /** A finding is of its run: of the audit, or of one of the steps. */
  predicate BelongsTo(origin: Origin, finding: Finding) {
    match (origin, finding.content)
    case (AuditRun(audit, _), AuditEntry(audit', _, _)) => audit' == audit
    case (WorkflowRun(_, _, _, stepIds), StepReport(stepId, _, _)) => stepId in stepIds
    case _ => false
  }

  ghost predicate GoodAssigned(inputs: seq<Assignment>) {
    && (forall i :: 0 <= i < |inputs| ==> AssignmentFields(inputs[i]))
    && (forall i, j :: 0 <= i < j < |inputs| ==> inputs[i].inputId != inputs[j].inputId)
  }

  ghost predicate GoodStepIds(stepIds: seq<string>) {
    && (forall i :: 0 <= i < |stepIds| ==> IsIdentifier(stepIds[i]))
    && Distinct(stepIds)
  }

  ghost predicate GoodOrigin(origin: Origin) {
    origin.WorkflowRun? ==>
      && HasMetadata(origin.workflow) && GoodAssigned(origin.inputs)
      && 0 < origin.stepCount == |origin.stepIds| && GoodStepIds(origin.stepIds)
  }

  ghost predicate GoodFindings(origin: Origin, findings: seq<Finding>) {
    && (forall i :: 0 <= i < |findings| ==> FindingFields(findings[i]) && BelongsTo(origin, findings[i]))
    && DistinctIds(findings) && DistinctSteps(findings)
  }

  ghost predicate ValidRun(run: Run) {
    HasMetadata(run.metadata) && GoodOrigin(run.origin) && GoodFindings(run.origin, run.findings)
  }

  /** A finding of a run is named and valid, and of the run's audit or one of its
      steps. */
  lemma FindingsAre(origin: Origin, finding: Finding)
    ensures FindingFields(finding) && BelongsTo(origin, finding) <==>
      && Plain(finding.id)
      && match finding.content
         case AuditEntry(audit, _, entryIsValid) => entryIsValid && origin.AuditRun? && origin.audit == audit
         case StepReport(stepId, _, reportIsValid) =>
           reportIsValid && origin.WorkflowRun? && exists k :: 0 <= k < |origin.stepIds| && origin.stepIds[k] == stepId
  {
    hide IsIdentifier, Plain;
    FieldsAre(finding.id);
  }

  /** A run comes from an audit, or from a workflow with as many distinct steps as it
      declares, at least one, and distinct inputs with concrete targets. */
  lemma OriginsAre(origin: Origin)
    ensures origin.AuditRun? ==> GoodOrigin(origin)
    ensures origin.WorkflowRun? ==>
      (GoodOrigin(origin) <==>
         && MetadataIs(origin.workflow) && origin.stepCount > 0 && |origin.stepIds| == origin.stepCount
         && (forall i :: 0 <= i < |origin.stepIds| ==> Plain(origin.stepIds[i]))
         && (forall i, j :: 0 <= i < j < |origin.stepIds| ==> origin.stepIds[i] != origin.stepIds[j])
         && (forall i :: 0 <= i < |origin.inputs| ==> AssignmentFields(origin.inputs[i]))
         && (forall i, j :: 0 <= i < j < |origin.inputs| ==> origin.inputs[i].inputId != origin.inputs[j].inputId))
  {
    hide HasMetadata, MetadataIs, GoodAssigned, GoodStepIds;
    if origin.WorkflowRun? {
      StepIdsAre(origin.stepIds);
      AssignedAre(origin.inputs);
      HeaderFieldsAre(origin.workflow, InputSpec("", "", None, NoteTarget));
    }
  }

  lemma StepIdsAre(stepIds: seq<string>)
    ensures GoodStepIds(stepIds) <==>
      && (forall i :: 0 <= i < |stepIds| ==> Plain(stepIds[i]))
      && (forall i, j :: 0 <= i < j < |stepIds| ==> stepIds[i] != stepIds[j])
  {
    hide IsIdentifier, Plain;
    forall i | 0 <= i < |stepIds| {
      FieldsAre(stepIds[i]);
    }
  }

  lemma AssignedAre(inputs: seq<Assignment>)
    ensures GoodAssigned(inputs) <==>
      && (forall i :: 0 <= i < |inputs| ==> AssignmentFields(inputs[i]))
      && (forall i, j :: 0 <= i < j < |inputs| ==> inputs[i].inputId != inputs[j].inputId)
  {
    hide AssignmentFields;
  }

  datatype RunError = BadMetadata | BadOrigin | BadFinding(index: nat)

  /** What an error says of a run: the metadata is judged first, then the origin, then
      the findings in turn. */
  ghost predicate BlamesRun(run: Run, error: RunError) {
    match error
    case BadMetadata => !HasMetadata(run.metadata)
    case BadOrigin => HasMetadata(run.metadata) && !GoodOrigin(run.origin)
    case BadFinding(i) =>
      && HasMetadata(run.metadata) && GoodOrigin(run.origin) && i < |run.findings|
      && GoodFindings(run.origin, run.findings[..i]) && !GoodFindings(run.origin, run.findings[..i + 1])
  }

  method OriginIsValid(origin: Origin) returns (valid: bool)
    ensures valid <==> GoodOrigin(origin)
  {
    hide HasMetadata, AssignmentFields, IsIdentifier;
    if origin.AuditRun? {
      return true;
    }
    if !HasMetadata(origin.workflow) {
      return false;
    }
    var inputs, stepIds := origin.inputs, origin.stepIds;
    var seenInputs: seq<string> := [];
    for n := 0 to |inputs|
      invariant |seenInputs| == n && forall i :: 0 <= i < n ==> seenInputs[i] == inputs[i].inputId
      invariant GoodAssigned(inputs[..n])
    {
      if !AssignmentFields(inputs[n]) || inputs[n].inputId in seenInputs {
        return false;
      }
      seenInputs := seenInputs + [inputs[n].inputId];
    }
    assert inputs[..|inputs|] == inputs;
    if origin.stepCount == 0 || |stepIds| != origin.stepCount {
      return false;
    }
    for n := 0 to |stepIds|
      invariant GoodStepIds(stepIds[..n])
    {
      if !IsIdentifier(stepIds[n]) || stepIds[n] in stepIds[..n] {
        return false;
      }
    }
    assert stepIds[..|stepIds|] == stepIds;
    valid := true;
  }

  /** A run passes exactly when it is valid, and the finding an error names is the
      first that spoils it. */
  method ValidationError(run: Run) returns (error: Option<RunError>)
    ensures error.None? <==> ValidRun(run)
    ensures error == Some(BadMetadata) <==> !HasMetadata(run.metadata)
    ensures error == Some(BadOrigin) <==> HasMetadata(run.metadata) && !GoodOrigin(run.origin)
    ensures error.Some? ==> BlamesRun(run, error.value)
  {
    hide HasMetadata, GoodOrigin, FindingFields, BelongsTo;
    if !HasMetadata(run.metadata) {
      return Some(BadMetadata);
    }
    var origin, findings := run.origin, run.findings;
    var originIsValid := OriginIsValid(origin);
    if !originIsValid {
      return Some(BadOrigin);
    }
    var seen: seq<string> := [];
    var seenSteps: seq<string> := [];
    for n := 0 to |findings|
      invariant GoodFindings(origin, findings[..n])
      invariant forall id :: id in seen <==> exists i :: 0 <= i < n && findings[i].id == id
      invariant forall id :: id in seenSteps <==> exists i ::
        0 <= i < n && findings[i].content.StepReport? && findings[i].content.stepId == id
    {
      var finding := findings[n];
      ghost var longer := findings[..n + 1];
      assert longer == findings[..n] + [finding];
      if !FindingFields(finding) || finding.id in seen || !BelongsTo(origin, finding) {
        if finding.id in seen {
          var i :| 0 <= i < n && findings[i].id == finding.id;
          assert longer[i].id == longer[n].id;
        }
        assert !(FindingFields(longer[n]) && BelongsTo(origin, longer[n])) || finding.id in seen;
        BadFindingSpoils(run, n);
        return Some(BadFinding(n));
      }
      if finding.content.StepReport? {
        if finding.content.stepId in seenSteps {
          var i :|
            && 0 <= i < n && findings[i].content.StepReport?
            && findings[i].content.stepId == finding.content.stepId;
          assert longer[i].content.stepId == longer[n].content.stepId;
          BadFindingSpoils(run, n);
          return Some(BadFinding(n));
        }
        seenSteps := seenSteps + [finding.content.stepId];
      }
      seen := seen + [finding.id];
    }
    assert findings[..|findings|] == findings;
    error := None;
  }

  lemma BadFindingSpoils(run: Run, n: nat)
    requires n < |run.findings| && !GoodFindings(run.origin, run.findings[..n + 1])
    ensures !ValidRun(run)
  {
    hide FindingFields, BelongsTo, HasMetadata, GoodOrigin;
  }

  lemma SubsetSize<T>(s: set<T>, t: set<T>)
    requires s <= t
    ensures |s| <= |t|
  {
    assert t == s + (t - s);
  }

  lemma {:induction false} DistinctSize<T>(s: seq<T>)
    requires Distinct(s)
    ensures |set x | x in s| == |s|
  {
    if s != [] {
      var n := |s| - 1;
      DistinctSize(s[..n]);
      assert (set x | x in s) == (set x | x in s[..n]) + {s[n]};
    }
  }

  /** A valid run of a workflow reports at most one finding for each step. */
  lemma FindingsFitSteps(run: Run)
    requires ValidRun(run) && run.origin.WorkflowRun?
    ensures |run.findings| <= run.origin.stepCount
  {
    hide FindingFields, HasMetadata, GoodAssigned, IsIdentifier;
    var stepIds := run.origin.stepIds;
    var findings := run.findings;
    var steps := seq(|findings|, i requires 0 <= i < |findings| && findings[i].content.StepReport? =>
                                   findings[i].content.stepId);
    DistinctSize(steps);
    DistinctSize(stepIds);
    SubsetSize(set x | x in steps, set x | x in stepIds);
  }
}
