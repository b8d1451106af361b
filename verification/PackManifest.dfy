/** Manifests of workbench packs, as validation.rs checks them: every defect is
    reported, nothing else is, and a manifest without issues is closed. */
module PackManifest {
  import opened Basics
  import opened Text
  import opened Workflow
  import ReportProfiles

  type Profile = ReportProfiles.Profile

  datatype RoutineSource = Audit | FromWorkflow(workflowId: string) | UnsupportedSource
  datatype SaveReview = SaveReview(enabled: bool, reviewId: Option<string>, title: Option<string>,
                                   summary: Option<string>, overwrite: bool)
  datatype CompareTarget = LatestCompatibleReview | UnsupportedTarget
  datatype ComparePolicy = ComparePolicy(target: CompareTarget, reportProfileId: Option<string>)
  datatype Routine = Routine(metadata: Metadata, source: RoutineSource, inputs: seq<InputSpec>, saveReview: SaveReview,
                             compare: Option<ComparePolicy>, reportProfileIds: seq<string>)
  datatype Manifest = Manifest(metadata: Metadata, version: nat, workflows: seq<Spec>, routines: seq<Routine>,
                               profiles: seq<Profile>, entrypoints: seq<string>)

  /** What ships with the engine. */
  datatype BuiltIns = BuiltIns(workflows: seq<Spec>, routineIds: seq<string>)
  {
    ghost predicate Sound() {
      && (forall k :: 0 <= k < |workflows| ==> WellScoped(workflows[k]))
      && (forall j, k :: 0 <= j < k < |workflows| ==> workflows[j].metadata.id != workflows[k].metadata.id)
    }
  }

  datatype IssueKind =
    | InvalidMetadata | UnsupportedVersion | EmptyPack
    | InvalidWorkflow | InvalidReviewRoutine | InvalidReportProfile
    | DuplicateWorkflowId | DuplicateReviewRoutineId | DuplicateReportProfileId | DuplicateReviewRoutineReference
    | MissingWorkflowReference | MissingReviewRoutineReference | MissingReportProfileReference
    | InvalidReviewRoutineReference
  datatype Issue = Issue(kind: IssueKind, assetId: string)

  const MANIFEST_VERSION := 1

  // ---- A routine on its own ----

  predicate OptionalText(s: Option<string>) {
    s.Some? ==> HasText(s.value)
  }

  predicate OptionalIdentifier(s: Option<string>) {
    s.Some? ==> IsIdentifier(s.value)
  }

  predicate SourceFields(source: RoutineSource) {
    match source
    case Audit => true
    case FromWorkflow(workflowId) => IsIdentifier(workflowId)
    case UnsupportedSource => false
  }

  predicate SaveReviewFields(save: SaveReview) {
    && OptionalIdentifier(save.reviewId) && OptionalText(save.title) && OptionalText(save.summary)
    && (save.enabled || (save.reviewId.None? && save.title.None? && save.summary.None? && !save.overwrite))
  }

  predicate CompareFields(routine: Routine) {
    routine.compare.Some? ==>
      && routine.saveReview.enabled
      && routine.compare.value.target.LatestCompatibleReview?
      && OptionalIdentifier(routine.compare.value.reportProfileId)
  }

  ghost predicate GoodRoutineInputs(routine: Routine) {
    && (routine.source.Audit? ==> routine.inputs == [])
    && GoodInputs(routine.inputs, |routine.inputs|)
  }

  ghost predicate GoodProfileIds(ids: seq<string>) {
    (forall i :: 0 <= i < |ids| ==> IsIdentifier(ids[i])) && Distinct(ids)
  }

  ghost predicate GoodRoutine(routine: Routine) {
    && HasMetadata(routine.metadata) && SourceFields(routine.source) && GoodRoutineInputs(routine)
    && SaveReviewFields(routine.saveReview) && CompareFields(routine) && GoodProfileIds(routine.reportProfileIds)
  }

  /** What makes a routine's own policies valid: a save that is off says nothing else,
      and a comparison is with the latest compatible review of one that is on. */
  lemma PoliciesAre(routine: Routine)
    ensures SourceFields(routine.source) <==>
      routine.source.Audit? || (routine.source.FromWorkflow? && Plain(routine.source.workflowId))
    ensures SaveReviewFields(routine.saveReview) <==>
      var save := routine.saveReview;
      && (save.reviewId.Some? ==> Plain(save.reviewId.value))
      && (save.title.Some? ==> !AllWhitespace(save.title.value))
      && (save.summary.Some? ==> !AllWhitespace(save.summary.value))
      && (!save.enabled ==> save == SaveReview(false, None, None, None, false))
    ensures CompareFields(routine) <==>
      || routine.compare.None?
      || (routine.saveReview.enabled && routine.compare.value.target == LatestCompatibleReview
          && (routine.compare.value.reportProfileId.Some? ==> Plain(routine.compare.value.reportProfileId.value)))
  {
    hide IsIdentifier, HasText, Plain, AllWhitespace;
    forall s {
      FieldsAre(s);
    }
  }

  method RoutineIsValid(routine: Routine) returns (valid: bool)
    ensures valid <==> GoodRoutine(routine)
  {
    hide HasMetadata, InputFields, SourceFields, SaveReviewFields, CompareFields, IsIdentifier;
    if !HasMetadata(routine.metadata) || !SourceFields(routine.source) {
      return false;
    }
    if routine.source.Audit? && routine.inputs != [] {
      return false;
    }
    var seen: seq<string> := [];
    for index := 0 to |routine.inputs|
      invariant |seen| == index && forall i :: 0 <= i < index ==> seen[i] == routine.inputs[i].inputId
      invariant GoodInputs(routine.inputs, index)
    {
      var input := routine.inputs[index];
      if !InputFields(input) || input.inputId in seen {
        return false;
      }
      seen := seen + [input.inputId];
    }
    if !SaveReviewFields(routine.saveReview) || !CompareFields(routine) {
      return false;
    }
    var profiles := routine.reportProfileIds;
    for index := 0 to |profiles|
      invariant GoodProfileIds(profiles[..index])
    {
      if !IsIdentifier(profiles[index]) || profiles[index] in profiles[..index] {
        return false;
      }
    }
    assert profiles[..|profiles|] == profiles;
    valid := true;
  }

  // ---- What a routine may name ----

  function Ids(workflows: seq<Spec>): (ids: seq<string>)
    ensures |ids| == |workflows| && forall k :: 0 <= k < |ids| ==> ids[k] == workflows[k].metadata.id
  {
    seq(|workflows|, k requires 0 <= k < |workflows| => workflows[k].metadata.id)
  }

  function RoutineIds(routines: seq<Routine>): (ids: seq<string>)
    ensures |ids| == |routines| && forall k :: 0 <= k < |ids| ==> ids[k] == routines[k].metadata.id
  {
    seq(|routines|, k requires 0 <= k < |routines| => routines[k].metadata.id)
  }

  function ProfileIds(profiles: seq<Profile>): (ids: seq<string>)
    ensures |ids| == |profiles| && forall k :: 0 <= k < |ids| ==> ids[k] == profiles[k].metadata.id
  {
    seq(|profiles|, k requires 0 <= k < |profiles| => profiles[k].metadata.id)
  }

  /** The `k`-th workflow is the one its identifier names among the first `n`: no
      built-in has it, and no earlier one that is well scoped. */
  ghost predicate Names(builtIns: BuiltIns, workflows: seq<Spec>, n: nat, id: string, k: int)
    requires n <= |workflows|
  {
    && id !in Ids(builtIns.workflows)
    && 0 <= k < n && workflows[k].metadata.id == id && WellScoped(workflows[k])
    && forall j :: 0 <= j < k && workflows[j].metadata.id == id ==> !WellScoped(workflows[j])
  }

  /** The inputs of the workflow an identifier names. */
  ghost predicate ResolvesTo(builtIns: BuiltIns, workflows: seq<Spec>, n: nat, id: string, inputs: seq<InputSpec>)
    requires n <= |workflows|
  {
    || (exists k ::
          && 0 <= k < |builtIns.workflows| && builtIns.workflows[k].metadata.id == id
          && builtIns.workflows[k].inputs == inputs)
    || (exists k :: Names(builtIns, workflows, n, id, k) && workflows[k].inputs == inputs)
  }

  function Signature(input: InputSpec): (string, InputKind) {
    (input.inputId, input.kind)
  }

  function Signatures(inputs: seq<InputSpec>): (s: seq<(string, InputKind)>)
    ensures |s| == |inputs| && forall k :: 0 <= k < |s| ==> s[k] == Signature(inputs[k])
  {
    seq(|inputs|, k requires 0 <= k < |inputs| => Signature(inputs[k]))
  }

  /** The same identifiers with the same kinds, however often and in whatever order. */
  ghost predicate SameSignatures(a: seq<InputSpec>, b: seq<InputSpec>) {
    forall s :: s in Signatures(a) <==> s in Signatures(b)
  }

  method RoutineInputsMatch(inputs: seq<InputSpec>, accepted: seq<InputSpec>) returns (matches: bool)
    requires DistinctInputs(accepted, |accepted|)
    ensures matches <==> SameSignatures(inputs, accepted)
  {
    var accepts := Signatures(accepted);
    for n := 0 to |inputs|
      invariant forall i :: 0 <= i < n ==> Signature(inputs[i]) in accepts
    {
      var kind := KindOf(accepts, inputs[n].inputId);
      assert kind == Some(inputs[n].kind) <==> Signature(inputs[n]) in accepts by {
        KindOfIsSignature(accepted, inputs[n]);
      }
      if kind != Some(inputs[n].kind) {
        assert Signatures(inputs)[n] !in accepts;
        return false;
      }
    }
    for n := 0 to |accepted|
      invariant forall i :: 0 <= i < n ==> accepts[i] in Signatures(inputs)
    {
      if forall i :: 0 <= i < |inputs| ==> inputs[i].inputId != accepted[n].inputId {
        assert accepts[n] in accepts && accepts[n] !in Signatures(inputs);
        return false;
      }
      var i :| 0 <= i < |inputs| && inputs[i].inputId == accepted[n].inputId;
      assert Signature(inputs[i]) in accepts;
      assert Signatures(inputs)[i] == accepts[n];
    }
    matches := true;
  }

  lemma KindOfIsSignature(accepted: seq<InputSpec>, input: InputSpec)
    requires DistinctInputs(accepted, |accepted|)
    ensures KindOf(Signatures(accepted), input.inputId) == Some(input.kind) <==>
      Signature(input) in Signatures(accepted)
  {
    hide KindOf;
    var accepts := Signatures(accepted);
    if KindOf(accepts, input.inputId).Some? {
      var k := KindOfFound(accepts, input.inputId);
    }
    if Signature(input) in accepts {
      var k :| 0 <= k < |accepts| && accepts[k] == Signature(input);
      KindOfFinds(accepts, input.inputId, k);
    }
  }

  /** Between inputs with distinct identifiers, agreeing on signatures is a
      bijection that keeps identifiers and kinds. */
  lemma SignaturesPairUp(a: seq<InputSpec>, b: seq<InputSpec>)
    requires DistinctInputs(a, |a|) && DistinctInputs(b, |b|)
    ensures SameSignatures(a, b) <==> multiset(Signatures(a)) == multiset(Signatures(b))
  {
    if SameSignatures(a, b) {
      forall s ensures multiset(Signatures(a))[s] == multiset(Signatures(b))[s] {
        DistinctCounts(Signatures(a), s);
        DistinctCounts(Signatures(b), s);
      }
    } else {
      var s :| !(s in Signatures(a) <==> s in Signatures(b));
      assert s in multiset(Signatures(a)) <==> s in Signatures(a);
      assert s in multiset(Signatures(b)) <==> s in Signatures(b);
    }
  }

  // ---- The defects ----

  ghost predicate ManifestDefect(m: Manifest, x: Issue) {
    && x.assetId == m.metadata.id
    && match x.kind
       case InvalidMetadata => !HasMetadata(m.metadata)
       case UnsupportedVersion => m.version != MANIFEST_VERSION
       case EmptyPack => m.workflows == [] && m.routines == [] && m.profiles == []
       case _ => false
  }

  ghost predicate WorkflowDefect(m: Manifest, builtIns: BuiltIns, i: int, x: Issue) {
    && 0 <= i < |m.workflows| && x.assetId == m.workflows[i].metadata.id
    && match x.kind
       case InvalidWorkflow => !WellScoped(m.workflows[i])
       case DuplicateWorkflowId => x.assetId in Ids(builtIns.workflows) || x.assetId in Ids(m.workflows)[..i]
       case _ => false
  }

  ghost predicate ProfileDefect(m: Manifest, i: int, x: Issue) {
    && 0 <= i < |m.profiles| && x.assetId == m.profiles[i].metadata.id
    && match x.kind
       case InvalidReportProfile => !ReportProfiles.GoodProfile(m.profiles[i])
       case DuplicateReportProfileId => x.assetId in ProfileIds(m.profiles)[..i]
       case _ => false
  }

  /** A routine names a report profile, in its comparison or in its list. */
  ghost predicate NamesProfile(routine: Routine, profileId: string) {
    || (routine.compare.Some? && routine.compare.value.reportProfileId == Some(profileId))
    || profileId in routine.reportProfileIds
  }

  ghost predicate ReferenceDefect(m: Manifest, builtIns: BuiltIns, routine: Routine, kind: IssueKind) {
    match kind
    case MissingWorkflowReference =>
      routine.source.FromWorkflow?
      && forall inputs :: !ResolvesTo(builtIns, m.workflows, |m.workflows|, routine.source.workflowId, inputs)
    case InvalidReviewRoutineReference =>
      routine.source.FromWorkflow?
      && exists inputs ::
           && ResolvesTo(builtIns, m.workflows, |m.workflows|, routine.source.workflowId, inputs)
           && !SameSignatures(routine.inputs, inputs)
    case MissingReportProfileReference =>
      exists profileId :: NamesProfile(routine, profileId) && profileId !in ProfileIds(m.profiles)
    case _ => false
  }

  ghost predicate RoutineDefect(m: Manifest, builtIns: BuiltIns, i: int, x: Issue) {
    && 0 <= i < |m.routines| && x.assetId == m.routines[i].metadata.id
    && match x.kind
       case InvalidReviewRoutine => !GoodRoutine(m.routines[i])
       case DuplicateReviewRoutineId => x.assetId in builtIns.routineIds || x.assetId in RoutineIds(m.routines)[..i]
       case kind => ReferenceDefect(m, builtIns, m.routines[i], kind)
  }

  ghost predicate EntrypointDefect(entrypoints: seq<string>, routineIds: seq<string>, i: int, x: Issue) {
    && 0 <= i < |entrypoints| && x.assetId == entrypoints[i]
    && match x.kind
       case InvalidReviewRoutineReference => !IsIdentifier(entrypoints[i])
       case DuplicateReviewRoutineReference => IsIdentifier(entrypoints[i]) && entrypoints[i] in entrypoints[..i]
       case MissingReviewRoutineReference => IsIdentifier(entrypoints[i]) && entrypoints[i] !in routineIds
       case _ => false
  }

  ghost predicate Defect(m: Manifest, builtIns: BuiltIns, x: Issue) {
    || ManifestDefect(m, x)
    || (exists i :: WorkflowDefect(m, builtIns, i, x))
    || (exists i :: ProfileDefect(m, i, x))
    || (exists i :: RoutineDefect(m, builtIns, i, x))
    || (exists i :: EntrypointDefect(m.entrypoints, RoutineIds(m.routines), i, x))
  }

  // ---- The defects in the order they are reported ----

  function When(holds: bool, issue: Issue): (issues: seq<Issue>)
    ensures forall x :: x in issues <==> holds && x == issue
  {
    if holds then [issue] else []
  }

  function Concat(parts: seq<seq<Issue>>): seq<Issue> {
    if parts == [] then [] else Concat(parts[..|parts| - 1]) + parts[|parts| - 1]
  }

  lemma {:induction false} InConcat(parts: seq<seq<Issue>>, x: Issue)
    ensures x in Concat(parts) <==> exists i :: 0 <= i < |parts| && x in parts[i]
  {
    if parts != [] {
      var n := |parts| - 1;
      InConcat(parts[..n], x);
      assert forall i :: 0 <= i < n ==> parts[..n][i] == parts[i];
    }
  }

  lemma ConcatNone(parts: seq<seq<Issue>>)
    ensures Concat(parts[..0]) == []
  {
  }

  lemma ConcatStep(parts: seq<seq<Issue>>, n: nat)
    requires n < |parts|
    ensures Concat(parts[..n + 1]) == Concat(parts[..n]) + parts[n]
  {
    assert parts[..n + 1][..n] == parts[..n];
  }

  ghost function OwnIssues(m: Manifest): seq<Issue> {
    var id := m.metadata.id;
    When(!HasMetadata(m.metadata), Issue(IssueKind.InvalidMetadata, id))
    + When(m.version != MANIFEST_VERSION, Issue(IssueKind.UnsupportedVersion, id))
    + When(m.workflows == [] && m.routines == [] && m.profiles == [], Issue(EmptyPack, id))
  }

  /** An identifier that a built-in and an earlier workflow have is reported twice. */
  ghost function IssuesOfWorkflow(m: Manifest, builtIns: BuiltIns, i: nat): (issues: seq<Issue>)
    requires i < |m.workflows|
    ensures forall x :: x in issues <==> WorkflowDefect(m, builtIns, i, x)
  {
    hide WellScoped;
    var id := m.workflows[i].metadata.id;
    When(!WellScoped(m.workflows[i]), Issue(InvalidWorkflow, id))
    + When(id in Ids(builtIns.workflows), Issue(DuplicateWorkflowId, id))
    + When(id in Ids(m.workflows)[..i], Issue(DuplicateWorkflowId, id))
  }

  ghost function IssuesOfProfile(m: Manifest, i: nat): (issues: seq<Issue>)
    requires i < |m.profiles|
    ensures forall x :: x in issues <==> ProfileDefect(m, i, x)
  {
    hide ReportProfiles.GoodProfile;
    var id := m.profiles[i].metadata.id;
    When(!ReportProfiles.GoodProfile(m.profiles[i]), Issue(InvalidReportProfile, id))
    + When(id in ProfileIds(m.profiles)[..i], Issue(DuplicateReportProfileId, id))
  }

  function ComparedProfile(routine: Routine): seq<string> {
    if routine.compare.Some? && routine.compare.value.reportProfileId.Some?
    then [routine.compare.value.reportProfileId.value] else []
  }

  /** The report profiles a routine names, its comparison's first. */
  function NamedProfiles(routine: Routine): (ids: seq<string>)
    ensures forall id :: id in ids <==> NamesProfile(routine, id)
  {
    ComparedProfile(routine) + routine.reportProfileIds
  }

  /** One issue for each of the names that is not known. */
  function IssuesOfNames(names: seq<string>, known: seq<string>, issue: Issue): seq<Issue> {
    if names == [] then []
    else
      var n := |names| - 1;
      IssuesOfNames(names[..n], known, issue) + When(names[n] !in known, issue)
  }

  lemma NoNames(known: seq<string>, issue: Issue)
    ensures IssuesOfNames([], known, issue) == []
  {
  }

  lemma NextName(names: seq<string>, n: nat, known: seq<string>, issue: Issue)
    requires n < |names|
    ensures IssuesOfNames(names[..n + 1], known, issue) ==
            IssuesOfNames(names[..n], known, issue) + if names[n] in known then [] else [issue]
  {
    assert names[..n + 1][..n] == names[..n];
  }

  lemma {:induction false} InIssuesOfNames(names: seq<string>, known: seq<string>, issue: Issue, x: Issue)
    ensures x in IssuesOfNames(names, known, issue) <==> x == issue && exists id :: id in names && id !in known
  {
    if names != [] {
      var n := |names| - 1;
      InIssuesOfNames(names[..n], known, issue, x);
      assert names == names[..n] + [names[n]];
    }
  }

  ghost function IssuesOfReferences(m: Manifest, builtIns: BuiltIns, routine: Routine): (issues: seq<Issue>)
    ensures forall x :: x in issues <==>
      x.assetId == routine.metadata.id && ReferenceDefect(m, builtIns, routine, x.kind)
  {
    hide ResolvesTo, SameSignatures;
    var id, missing := routine.metadata.id, Issue(MissingReportProfileReference, routine.metadata.id);
    forall x {
      InIssuesOfNames(NamedProfiles(routine), ProfileIds(m.profiles), missing, x);
    }
    When(ReferenceDefect(m, builtIns, routine, MissingWorkflowReference), Issue(MissingWorkflowReference, id))
    + When(ReferenceDefect(m, builtIns, routine, InvalidReviewRoutineReference),
           Issue(InvalidReviewRoutineReference, id))
    + IssuesOfNames(NamedProfiles(routine), ProfileIds(m.profiles), missing)
  }

  lemma OnlyReferences(m: Manifest, builtIns: BuiltIns, routine: Routine, kind: IssueKind)
    ensures ReferenceDefect(m, builtIns, routine, kind) ==>
      kind == MissingWorkflowReference || kind == InvalidReviewRoutineReference || kind == MissingReportProfileReference
  {
    hide ResolvesTo, SameSignatures, NamesProfile;
  }

  ghost function IssuesOfRoutine(m: Manifest, builtIns: BuiltIns, i: nat): seq<Issue>
    requires i < |m.routines|
  {
    var id := m.routines[i].metadata.id;
    When(!GoodRoutine(m.routines[i]), Issue(InvalidReviewRoutine, id))
    + When(id in builtIns.routineIds, Issue(DuplicateReviewRoutineId, id))
    + When(id in RoutineIds(m.routines)[..i], Issue(DuplicateReviewRoutineId, id))
    + IssuesOfReferences(m, builtIns, m.routines[i])
  }

  lemma InIssuesOfRoutine(m: Manifest, builtIns: BuiltIns, i: nat, x: Issue)
    requires i < |m.routines|
    ensures x in IssuesOfRoutine(m, builtIns, i) <==> RoutineDefect(m, builtIns, i, x)
  {
    hide GoodRoutine, ReferenceDefect, IssuesOfReferences, When;
    OnlyReferences(m, builtIns, m.routines[i], x.kind);
  }

  ghost function IssuesOfEntrypoint(entrypoints: seq<string>, routineIds: seq<string>, i: nat): (issues: seq<Issue>)
    requires i < |entrypoints|
    ensures forall x :: x in issues <==> EntrypointDefect(entrypoints, routineIds, i, x)
  {
    hide IsIdentifier;
    var id := entrypoints[i];
    if !IsIdentifier(id) then [Issue(InvalidReviewRoutineReference, id)]
    else
      When(id in entrypoints[..i], Issue(DuplicateReviewRoutineReference, id))
      + When(id !in routineIds, Issue(MissingReviewRoutineReference, id))
  }

  ghost function WorkflowParts(m: Manifest, builtIns: BuiltIns): (parts: seq<seq<Issue>>)
    ensures |parts| == |m.workflows| && forall i :: 0 <= i < |parts| ==> parts[i] == IssuesOfWorkflow(m, builtIns, i)
  {
    seq(|m.workflows|, i requires 0 <= i < |m.workflows| => IssuesOfWorkflow(m, builtIns, i))
  }

  ghost function ProfileParts(m: Manifest): (parts: seq<seq<Issue>>)
    ensures |parts| == |m.profiles| && forall i :: 0 <= i < |parts| ==> parts[i] == IssuesOfProfile(m, i)
  {
    seq(|m.profiles|, i requires 0 <= i < |m.profiles| => IssuesOfProfile(m, i))
  }

  ghost function RoutineParts(m: Manifest, builtIns: BuiltIns): (parts: seq<seq<Issue>>)
    ensures |parts| == |m.routines| && forall i :: 0 <= i < |parts| ==> parts[i] == IssuesOfRoutine(m, builtIns, i)
  {
    seq(|m.routines|, i requires 0 <= i < |m.routines| => IssuesOfRoutine(m, builtIns, i))
  }

  ghost function EntrypointParts(entrypoints: seq<string>, routineIds: seq<string>): (parts: seq<seq<Issue>>)
    ensures |parts| == |entrypoints|
    ensures forall i :: 0 <= i < |parts| ==> parts[i] == IssuesOfEntrypoint(entrypoints, routineIds, i)
  {
    seq(|entrypoints|, i requires 0 <= i < |entrypoints| => IssuesOfEntrypoint(entrypoints, routineIds, i))
  }

  /** Every issue: the manifest's own, then part by part, each part in the order of the
      manifest. */
  ghost function Report(m: Manifest, builtIns: BuiltIns): seq<Issue> {
    OwnIssues(m)
    + Concat(WorkflowParts(m, builtIns)) + Concat(ProfileParts(m)) + Concat(RoutineParts(m, builtIns))
    + Concat(EntrypointParts(m.entrypoints, RoutineIds(m.routines)))
  }

  lemma InWorkflowParts(m: Manifest, builtIns: BuiltIns, x: Issue)
    ensures x in Concat(WorkflowParts(m, builtIns)) <==> exists i :: WorkflowDefect(m, builtIns, i, x)
  {
    hide IssuesOfWorkflow, Concat, WellScoped;
    InConcat(WorkflowParts(m, builtIns), x);
    assert forall i :: 0 <= i < |m.workflows| ==>
      (x in IssuesOfWorkflow(m, builtIns, i) <==> WorkflowDefect(m, builtIns, i, x));
  }

  lemma InProfileParts(m: Manifest, x: Issue)
    ensures x in Concat(ProfileParts(m)) <==> exists i :: ProfileDefect(m, i, x)
  {
    hide IssuesOfProfile, Concat, ReportProfiles.GoodProfile;
    InConcat(ProfileParts(m), x);
    assert forall i :: 0 <= i < |m.profiles| ==> (x in IssuesOfProfile(m, i) <==> ProfileDefect(m, i, x));
  }

  lemma InRoutineParts(m: Manifest, builtIns: BuiltIns, x: Issue)
    ensures x in Concat(RoutineParts(m, builtIns)) <==> exists i :: RoutineDefect(m, builtIns, i, x)
  {
    hide IssuesOfRoutine, Concat, GoodRoutine, ReferenceDefect;
    InConcat(RoutineParts(m, builtIns), x);
    forall i | 0 <= i < |m.routines|
      ensures x in IssuesOfRoutine(m, builtIns, i) <==> RoutineDefect(m, builtIns, i, x)
    {
      InIssuesOfRoutine(m, builtIns, i, x);
    }
  }

  lemma InEntrypointParts(entrypoints: seq<string>, routineIds: seq<string>, x: Issue)
    ensures x in Concat(EntrypointParts(entrypoints, routineIds)) <==>
            exists i :: EntrypointDefect(entrypoints, routineIds, i, x)
  {
    hide IssuesOfEntrypoint, Concat, IsIdentifier;
    InConcat(EntrypointParts(entrypoints, routineIds), x);
    assert forall i :: 0 <= i < |entrypoints| ==>
      (x in IssuesOfEntrypoint(entrypoints, routineIds, i) <==> EntrypointDefect(entrypoints, routineIds, i, x));
  }

  // ---- The checks ----

  method ManifestIssues(m: Manifest) returns (issues: seq<Issue>)
    ensures issues == OwnIssues(m)
    ensures forall x :: x in issues <==> ManifestDefect(m, x)
  {
    hide HasMetadata;
    var id := m.metadata.id;
    issues := [];
    if !HasMetadata(m.metadata) {
      issues := issues + [Issue(IssueKind.InvalidMetadata, id)];
    }
    if m.version == 0 || m.version > MANIFEST_VERSION {
      issues := issues + [Issue(IssueKind.UnsupportedVersion, id)];
    }
    if m.workflows == [] && m.routines == [] && m.profiles == [] {
      issues := issues + [Issue(EmptyPack, id)];
    }
  }

  /** The table answers for exactly the workflows the first `n` make available. */
  ghost predicate Tables(builtIns: BuiltIns, workflows: seq<Spec>, n: nat, table: seq<(string, seq<InputSpec>)>)
    requires n <= |workflows|
  {
    forall id, inputs :: KindOf(table, id) == Some(inputs) <==> ResolvesTo(builtIns, workflows, n, id, inputs)
  }

  lemma {:induction false} KindOfExtended<K>(seen: seq<(string, K)>, last: (string, K), id: string)
    ensures KindOf(seen + [last], id)
         == if KindOf(seen, id).Some? then KindOf(seen, id) else if last.0 == id then Some(last.1) else None
  {
    if seen == [] {
      assert seen + [last] == [last];
    } else {
      assert (seen + [last])[1..] == seen[1..] + [last];
      KindOfExtended(seen[1..], last, id);
    }
  }

  function BuiltInTable(workflows: seq<Spec>): (table: seq<(string, seq<InputSpec>)>)
    ensures |table| == |workflows|
    ensures forall k :: 0 <= k < |table| ==> table[k] == (workflows[k].metadata.id, workflows[k].inputs)
  {
    seq(|workflows|, k requires 0 <= k < |workflows| => (workflows[k].metadata.id, workflows[k].inputs))
  }

  lemma BuiltInsTable(builtIns: BuiltIns, workflows: seq<Spec>)
    requires builtIns.Sound()
    ensures Tables(builtIns, workflows, 0, BuiltInTable(builtIns.workflows))
  {
    hide KindOf, WellScoped;
    var table := BuiltInTable(builtIns.workflows);
    forall id, inputs
      ensures KindOf(table, id) == Some(inputs) <==> ResolvesTo(builtIns, workflows, 0, id, inputs)
    {
      if KindOf(table, id) == Some(inputs) {
        var k := KindOfFound(table, id);
        assert builtIns.workflows[k].metadata.id == id;
      }
      if ResolvesTo(builtIns, workflows, 0, id, inputs) {
        var k :|
          && 0 <= k < |builtIns.workflows| && builtIns.workflows[k].metadata.id == id
          && builtIns.workflows[k].inputs == inputs;
        KindOfFinds(table, id, k);
      }
    }
  }

  /** What one more workflow adds to the table. */
  lemma NextTable(builtIns: BuiltIns, workflows: seq<Spec>, n: nat, table: seq<(string, seq<InputSpec>)>,
                  longer: seq<(string, seq<InputSpec>)>)
    requires n < |workflows| && Tables(builtIns, workflows, n, table)
    requires
      var w := workflows[n];
      longer ==
      if WellScoped(w) && w.metadata.id !in Ids(builtIns.workflows) then table + [(w.metadata.id, w.inputs)] else table
    ensures Tables(builtIns, workflows, n + 1, longer)
  {
    hide KindOf, WellScoped;
    var w := workflows[n];
    forall id, inputs
      ensures KindOf(longer, id) == Some(inputs) <==> ResolvesTo(builtIns, workflows, n + 1, id, inputs)
    {
      KindOfExtended(table, (w.metadata.id, w.inputs), id);
      NamesNext(builtIns, workflows, n, id);
      if KindOf(table, id).Some? {
        assert ResolvesTo(builtIns, workflows, n, id, KindOf(table, id).value);
      }
      if k :| Names(builtIns, workflows, n, id, k) {
        assert ResolvesTo(builtIns, workflows, n, id, workflows[k].inputs);
      }
      if k :| 0 <= k < |builtIns.workflows| && builtIns.workflows[k].metadata.id == id {
        assert Ids(builtIns.workflows)[k] == id;
        assert ResolvesTo(builtIns, workflows, n, id, builtIns.workflows[k].inputs);
      }
    }
  }

  lemma NamesNext(builtIns: BuiltIns, workflows: seq<Spec>, n: nat, id: string)
    requires n < |workflows|
    ensures forall k :: Names(builtIns, workflows, n + 1, id, k) && k < n <==> Names(builtIns, workflows, n, id, k)
    ensures Names(builtIns, workflows, n + 1, id, n) <==>
      (id !in Ids(builtIns.workflows) && workflows[n].metadata.id == id && WellScoped(workflows[n])
       && forall k :: !Names(builtIns, workflows, n, id, k))
  {
    hide WellScoped;
    if (exists j :: 0 <= j < n && workflows[j].metadata.id == id && WellScoped(workflows[j]))
      && id !in Ids(builtIns.workflows) {
      var k := FirstNamed(builtIns, workflows, n, id);
    }
  }

  lemma FirstNamed(builtIns: BuiltIns, workflows: seq<Spec>, n: nat, id: string) returns (k: nat)
    requires n <= |workflows| && id !in Ids(builtIns.workflows)
    requires exists j :: 0 <= j < n && workflows[j].metadata.id == id && WellScoped(workflows[j])
    ensures Names(builtIns, workflows, n, id, k)
  {
    hide WellScoped;
    k := 0;
    while !(workflows[k].metadata.id == id && WellScoped(workflows[k]))
      decreases n - k
      invariant k < n
      invariant exists j :: k <= j < n && workflows[j].metadata.id == id && WellScoped(workflows[j])
      invariant forall j :: 0 <= j < k && workflows[j].metadata.id == id ==> !WellScoped(workflows[j])
    {
      k := k + 1;
    }
  }

  method WorkflowIssues(m: Manifest, builtIns: BuiltIns)
    returns (issues: seq<Issue>, table: seq<(string, seq<InputSpec>)>)
    requires builtIns.Sound()
    ensures issues == Concat(WorkflowParts(m, builtIns))
    ensures forall x :: x in issues <==> exists i :: WorkflowDefect(m, builtIns, i, x)
    ensures Tables(builtIns, m.workflows, |m.workflows|, table)
  {
    hide WellScoped, Tables, Blames, WorkflowDefect, Concat, WorkflowParts;
    ghost var parts := WorkflowParts(m, builtIns);
    ConcatNone(parts);
    issues := [];
    table := BuiltInTable(builtIns.workflows);
    BuiltInsTable(builtIns, m.workflows);
    var ids: seq<string> := [];
    for n := 0 to |m.workflows|
      invariant ids == Ids(m.workflows)[..n]
      invariant issues == Concat(parts[..n])
      invariant Tables(builtIns, m.workflows, n, table)
    {
      var w := m.workflows[n];
      var id := w.metadata.id;
      var collides := id in Ids(builtIns.workflows);
      var found: seq<Issue> := [];
      var error := ValidationError(w);
      ghost var was := table;
      if error.Some? {
        found := found + [Issue(InvalidWorkflow, id)];
      } else if !collides {
        table := table + [(id, w.inputs)];
      }
      if collides {
        found := found + [Issue(DuplicateWorkflowId, id)];
      }
      if id in ids {
        found := found + [Issue(DuplicateWorkflowId, id)];
      }
      assert found == IssuesOfWorkflow(m, builtIns, n);
      ConcatStep(parts, n);
      NextTable(builtIns, m.workflows, n, was, table);
      ids := ids + [id];
      issues := issues + found;
    }
    assert parts[..|parts|] == parts;
    forall x ensures x in issues <==> exists i :: WorkflowDefect(m, builtIns, i, x) {
      InWorkflowParts(m, builtIns, x);
    }
  }

  method ProfileIssues(m: Manifest) returns (issues: seq<Issue>, ids: seq<string>)
    ensures issues == Concat(ProfileParts(m))
    ensures forall x :: x in issues <==> exists i :: ProfileDefect(m, i, x)
    ensures ids == ProfileIds(m.profiles)
  {
    hide ReportProfiles.GoodProfile, ProfileDefect, Concat, ProfileParts;
    ghost var parts := ProfileParts(m);
    ConcatNone(parts);
    issues := [];
    ids := [];
    for n := 0 to |m.profiles|
      invariant ids == ProfileIds(m.profiles)[..n]
      invariant issues == Concat(parts[..n])
    {
      var id := m.profiles[n].metadata.id;
      var found: seq<Issue> := [];
      var valid := ReportProfiles.ProfileIsValid(m.profiles[n]);
      if !valid {
        found := found + [Issue(InvalidReportProfile, id)];
      }
      if id in ids {
        found := found + [Issue(DuplicateReportProfileId, id)];
      }
      ConcatStep(parts, n);
      ids := ids + [id];
      issues := issues + found;
    }
    assert parts[..|parts|] == parts;
    forall x ensures x in issues <==> exists i :: ProfileDefect(m, i, x) {
      InProfileParts(m, x);
    }
  }

  method MissingProfiles(routine: Routine, profileIds: seq<string>) returns (issues: seq<Issue>)
    ensures
      var missing := Issue(MissingReportProfileReference, routine.metadata.id);
      && issues == IssuesOfNames(NamedProfiles(routine), profileIds, missing)
      && forall x :: x in issues <==>
           x == missing && exists profileId :: NamesProfile(routine, profileId) && profileId !in profileIds
  {
    hide NamesProfile, IssuesOfNames;
    var missing := Issue(MissingReportProfileReference, routine.metadata.id);
    ghost var names, first := NamedProfiles(routine), |ComparedProfile(routine)|;
    issues := [];
    NoNames(profileIds, missing);
    assert names[..0] == [];
    if routine.compare.Some? && routine.compare.value.reportProfileId.Some? {
      NextName(names, 0, profileIds, missing);
      if routine.compare.value.reportProfileId.value !in profileIds {
        issues := issues + [missing];
      }
    }
    for n := 0 to |routine.reportProfileIds|
      invariant issues == IssuesOfNames(names[..first + n], profileIds, missing)
    {
      NextName(names, first + n, profileIds, missing);
      if routine.reportProfileIds[n] !in profileIds {
        issues := issues + [missing];
      }
    }
    assert names[..|names|] == names;
    forall x ensures x in issues <==> x == missing && exists id :: NamesProfile(routine, id) && id !in profileIds {
      InIssuesOfNames(names, profileIds, missing, x);
    }
  }

  lemma ResolvesOnce(builtIns: BuiltIns, workflows: seq<Spec>, table: seq<(string, seq<InputSpec>)>, id: string,
                     inputs: seq<InputSpec>)
    requires builtIns.Sound() && Tables(builtIns, workflows, |workflows|, table) && KindOf(table, id) == Some(inputs)
    ensures DistinctInputs(inputs, |inputs|)
    ensures forall inputs' :: ResolvesTo(builtIns, workflows, |workflows|, id, inputs') ==> inputs' == inputs
  {
    hide KindOf;
    assert ResolvesTo(builtIns, workflows, |workflows|, id, inputs);
  }

  method ReferenceIssues(m: Manifest, builtIns: BuiltIns, routine: Routine, table: seq<(string, seq<InputSpec>)>,
                         profileIds: seq<string>)
    returns (issues: seq<Issue>)
    requires builtIns.Sound() && Tables(builtIns, m.workflows, |m.workflows|, table)
    requires profileIds == ProfileIds(m.profiles)
    ensures issues == IssuesOfReferences(m, builtIns, routine)
    ensures forall x :: x in issues <==>
      x.assetId == routine.metadata.id && ReferenceDefect(m, builtIns, routine, x.kind)
  {
    hide KindOf, ResolvesTo, WellScoped, SameSignatures, IssuesOfNames;
    issues := [];
    if routine.source.FromWorkflow? {
      var id := routine.source.workflowId;
      var inputs := KindOf(table, id);
      if inputs.Some? {
        ResolvesOnce(builtIns, m.workflows, table, id, inputs.value);
        var matches := RoutineInputsMatch(routine.inputs, inputs.value);
        if !matches {
          issues := issues + [Issue(InvalidReviewRoutineReference, routine.metadata.id)];
        }
      } else {
        issues := issues + [Issue(MissingWorkflowReference, routine.metadata.id)];
      }
    }
    var missing := MissingProfiles(routine, profileIds);
    issues := issues + missing;
  }

  method RoutineIssues(m: Manifest, builtIns: BuiltIns, table: seq<(string, seq<InputSpec>)>, profileIds: seq<string>)
    returns (issues: seq<Issue>, ids: seq<string>)
    requires builtIns.Sound() && Tables(builtIns, m.workflows, |m.workflows|, table)
    requires profileIds == ProfileIds(m.profiles)
    ensures issues == Concat(RoutineParts(m, builtIns))
    ensures forall x :: x in issues <==> exists i :: RoutineDefect(m, builtIns, i, x)
    ensures ids == RoutineIds(m.routines)
  {
    hide GoodRoutine, Tables, RoutineDefect, ReferenceDefect, IssuesOfReferences, Concat, RoutineParts;
    ghost var parts := RoutineParts(m, builtIns);
    ConcatNone(parts);
    issues := [];
    ids := [];
    for n := 0 to |m.routines|
      invariant ids == RoutineIds(m.routines)[..n]
      invariant issues == Concat(parts[..n])
    {
      var routine := m.routines[n];
      var id := routine.metadata.id;
      var found: seq<Issue> := [];
      var valid := RoutineIsValid(routine);
      if !valid {
        found := found + [Issue(InvalidReviewRoutine, id)];
      }
      if id in builtIns.routineIds {
        found := found + [Issue(DuplicateReviewRoutineId, id)];
      }
      if id in ids {
        found := found + [Issue(DuplicateReviewRoutineId, id)];
      }
      var references := ReferenceIssues(m, builtIns, routine, table, profileIds);
      found := found + references;
      ConcatStep(parts, n);
      ids := ids + [id];
      issues := issues + found;
    }
    assert parts[..|parts|] == parts;
    forall x ensures x in issues <==> exists i :: RoutineDefect(m, builtIns, i, x) {
      InRoutineParts(m, builtIns, x);
    }
  }

  method EntrypointIssues(entrypoints: seq<string>, routineIds: seq<string>) returns (issues: seq<Issue>)
    ensures issues == Concat(EntrypointParts(entrypoints, routineIds))
    ensures forall x :: x in issues <==> exists i :: EntrypointDefect(entrypoints, routineIds, i, x)
  {
    hide IsIdentifier, EntrypointDefect, Concat, EntrypointParts;
    ghost var parts := EntrypointParts(entrypoints, routineIds);
    ConcatNone(parts);
    issues := [];
    var seen: seq<string> := [];
    for n := 0 to |entrypoints|
      invariant forall id :: id in seen <==> id in entrypoints[..n] && IsIdentifier(id)
      invariant issues == Concat(parts[..n])
    {
      var id := entrypoints[n];
      var found: seq<Issue> := [];
      if !IsIdentifier(id) {
        found := [Issue(InvalidReviewRoutineReference, id)];
      } else {
        if id in seen {
          found := found + [Issue(DuplicateReviewRoutineReference, id)];
        }
        if id !in routineIds {
          found := found + [Issue(MissingReviewRoutineReference, id)];
        }
        seen := seen + [id];
      }
      ConcatStep(parts, n);
      issues := issues + found;
    }
    assert parts[..|parts|] == parts;
    forall x ensures x in issues <==> exists i :: EntrypointDefect(entrypoints, routineIds, i, x) {
      InEntrypointParts(entrypoints, routineIds, x);
    }
  }

  /** The issues are exactly the defects, in the order of the report. */
  method Issues(m: Manifest, builtIns: BuiltIns) returns (issues: seq<Issue>)
    requires builtIns.Sound()
    ensures issues == Report(m, builtIns)
    ensures forall x :: x in issues <==> Defect(m, builtIns, x)
    ensures issues == [] <==> Closed(m, builtIns)
  {
    hide ManifestDefect, WorkflowDefect, ProfileDefect, RoutineDefect, EntrypointDefect, Closed, Tables;
    hide OwnIssues, Concat, WorkflowParts, ProfileParts, RoutineParts, EntrypointParts;
    var own := ManifestIssues(m);
    var workflows, table := WorkflowIssues(m, builtIns);
    var profiles, profileIds := ProfileIssues(m);
    var routines, routineIds := RoutineIssues(m, builtIns, table, profileIds);
    var entrypoints := EntrypointIssues(m.entrypoints, routineIds);
    issues := own + workflows + profiles + routines + entrypoints;
    assert forall x :: x in issues <==> Defect(m, builtIns, x);
    assert issues != [] ==> issues[0] in issues;
    DefectFreeIsClosed(m, builtIns);
  }

  // ---- Closure ----

  /** The one workflow of the list an identifier names. */
  ghost predicate OnlyNamed(workflows: seq<Spec>, id: string, k: int) {
    && 0 <= k < |workflows| && workflows[k].metadata.id == id
    && forall j :: 0 <= j < |workflows| && workflows[j].metadata.id == id ==> j == k
  }

  /** A routine's source is one workflow, built in or of the manifest, and its
      inputs pair off with that workflow's, each with its kind. */
  ghost predicate ClosedSource(workflows: seq<Spec>, routine: Routine) {
    routine.source.FromWorkflow? ==>
      exists k :: OnlyNamed(workflows, routine.source.workflowId, k)
                  && multiset(Signatures(routine.inputs)) == multiset(Signatures(workflows[k].inputs))
  }

  ghost predicate ClosedRoutine(m: Manifest, builtIns: BuiltIns, routine: Routine) {
    && GoodRoutine(routine)
    && routine.metadata.id !in builtIns.routineIds
    && ClosedSource(builtIns.workflows + m.workflows, routine)
    && forall profileId :: NamesProfile(routine, profileId) ==> profileId in ProfileIds(m.profiles)
  }

  ghost predicate ClosedWorkflows(m: Manifest, builtIns: BuiltIns) {
    && (forall k :: 0 <= k < |m.workflows| ==> WellScoped(m.workflows[k]))
    && Distinct(Ids(builtIns.workflows + m.workflows))
  }

  ghost predicate ClosedProfiles(m: Manifest) {
    && (forall k :: 0 <= k < |m.profiles| ==> ReportProfiles.GoodProfile(m.profiles[k]))
    && Distinct(ProfileIds(m.profiles))
  }

  ghost predicate ClosedRoutines(m: Manifest, builtIns: BuiltIns) {
    && (forall k :: 0 <= k < |m.routines| ==> ClosedRoutine(m, builtIns, m.routines[k]))
    && Distinct(RoutineIds(m.routines))
  }

  ghost predicate ClosedEntrypoints(entrypoints: seq<string>, routineIds: seq<string>) {
    && (forall k :: 0 <= k < |entrypoints| ==> IsIdentifier(entrypoints[k]) && entrypoints[k] in routineIds)
    && Distinct(entrypoints)
  }

  ghost predicate Headed(m: Manifest) {
    && HasMetadata(m.metadata) && m.version == MANIFEST_VERSION
    && !(m.workflows == [] && m.routines == [] && m.profiles == [])
  }

  /** Non-empty, valid part by part, and closed under every reference. */
  ghost predicate Closed(m: Manifest, builtIns: BuiltIns) {
    && Headed(m)
    && ClosedWorkflows(m, builtIns) && ClosedProfiles(m) && ClosedRoutines(m, builtIns)
    && ClosedEntrypoints(m.entrypoints, RoutineIds(m.routines))
  }

  lemma HeaderCloses(m: Manifest)
    ensures (forall x :: !ManifestDefect(m, x)) <==> Headed(m)
  {
    hide HasMetadata;
    var id := m.metadata.id;
    assert ManifestDefect(m, Issue(IssueKind.InvalidMetadata, id)) <==> !HasMetadata(m.metadata);
    assert ManifestDefect(m, Issue(IssueKind.UnsupportedVersion, id)) <==> m.version != MANIFEST_VERSION;
    assert ManifestDefect(m, Issue(EmptyPack, id)) <==> m.workflows == [] && m.routines == [] && m.profiles == [];
  }

  /** No identifier repeats exactly when none is among those before it. */
  lemma DistinctByPrefix(ids: seq<string>)
    ensures Distinct(ids) <==> forall i :: 0 <= i < |ids| ==> ids[i] !in ids[..i]
  {
    if !Distinct(ids) {
      var i, j :| 0 <= i < j < |ids| && ids[i] == ids[j];
      assert ids[..j][i] == ids[j];
    }
  }

  lemma DistinctConcat(a: seq<string>, b: seq<string>)
    ensures Distinct(a + b) <==> Distinct(a) && Distinct(b) && forall i :: 0 <= i < |b| ==> b[i] !in a
  {
    if Distinct(a + b) {
      forall i, j | 0 <= i < j < |a| ensures a[i] != a[j] {
        assert (a + b)[i] != (a + b)[j];
      }
      forall i, j | 0 <= i < j < |b| ensures b[i] != b[j] {
        assert (a + b)[|a| + i] != (a + b)[|a| + j];
      }
      forall i, j | 0 <= i < |a| && 0 <= j < |b| ensures a[i] != b[j] {
        assert (a + b)[i] != (a + b)[|a| + j];
      }
    }
  }

  lemma WorkflowsClose(m: Manifest, builtIns: BuiltIns)
    requires builtIns.Sound()
    ensures (forall i, x :: !WorkflowDefect(m, builtIns, i, x)) <==> ClosedWorkflows(m, builtIns)
  {
    hide WellScoped, Distinct;
    var own, built := Ids(m.workflows), Ids(builtIns.workflows);
    DistinctByPrefix(own);
    assert Ids(builtIns.workflows + m.workflows) == built + own;
    DistinctConcat(built, own);
    assert Distinct(built) by {
      BuiltInIdsAreDistinct(builtIns);
    }
    if forall i, x :: !WorkflowDefect(m, builtIns, i, x) {
      forall i | 0 <= i < |m.workflows|
        ensures WellScoped(m.workflows[i]) && own[i] !in built && own[i] !in own[..i]
      {
        assert !WorkflowDefect(m, builtIns, i, Issue(InvalidWorkflow, own[i]));
        assert !WorkflowDefect(m, builtIns, i, Issue(DuplicateWorkflowId, own[i]));
      }
    }
  }

  lemma BuiltInIdsAreDistinct(builtIns: BuiltIns)
    requires builtIns.Sound()
    ensures Distinct(Ids(builtIns.workflows))
  {
    hide WellScoped;
  }

  lemma ProfilesClose(m: Manifest)
    ensures (forall i, x :: !ProfileDefect(m, i, x)) <==> ClosedProfiles(m)
  {
    hide ReportProfiles.GoodProfile;
    var ids := ProfileIds(m.profiles);
    DistinctByPrefix(ids);
    if forall i, x :: !ProfileDefect(m, i, x) {
      forall i | 0 <= i < |m.profiles| ensures ReportProfiles.GoodProfile(m.profiles[i]) && ids[i] !in ids[..i] {
        assert !ProfileDefect(m, i, Issue(InvalidReportProfile, ids[i]));
        assert !ProfileDefect(m, i, Issue(DuplicateReportProfileId, ids[i]));
      }
    }
  }

  lemma EntrypointsClose(entrypoints: seq<string>, routineIds: seq<string>)
    ensures (forall i, x :: !EntrypointDefect(entrypoints, routineIds, i, x)) <==>
      ClosedEntrypoints(entrypoints, routineIds)
  {
    hide IsIdentifier;
    DistinctByPrefix(entrypoints);
    if forall i, x :: !EntrypointDefect(entrypoints, routineIds, i, x) {
      forall i | 0 <= i < |entrypoints|
        ensures IsIdentifier(entrypoints[i]) && entrypoints[i] in routineIds && entrypoints[i] !in entrypoints[..i]
      {
        var id := entrypoints[i];
        assert !EntrypointDefect(entrypoints, routineIds, i, Issue(InvalidReviewRoutineReference, id));
        assert !EntrypointDefect(entrypoints, routineIds, i, Issue(DuplicateReviewRoutineReference, id));
        assert !EntrypointDefect(entrypoints, routineIds, i, Issue(MissingReviewRoutineReference, id));
      }
    }
  }

  lemma ResolvesToOnlyNamed(m: Manifest, builtIns: BuiltIns, id: string, inputs: seq<InputSpec>)
    requires ClosedWorkflows(m, builtIns)
    ensures ResolvesTo(builtIns, m.workflows, |m.workflows|, id, inputs) <==>
      exists k :: OnlyNamed(builtIns.workflows + m.workflows, id, k)
        && (builtIns.workflows + m.workflows)[k].inputs == inputs
  {
    hide WellScoped, ClosedWorkflows;
    var built, own, all := builtIns.workflows, m.workflows, builtIns.workflows + m.workflows;
    if k :| 0 <= k < |built| && built[k].metadata.id == id && built[k].inputs == inputs {
      ClosedNamesOnce(m, builtIns, k);
      assert all[k] == built[k];
    }
    if k :| Names(builtIns, own, |own|, id, k) && own[k].inputs == inputs {
      NamesInAll(m, builtIns, id, k);
      ClosedNamesOnce(m, builtIns, |built| + k);
    }
    if k :| OnlyNamed(all, id, k) && all[k].inputs == inputs {
      OnlyNamedResolves(m, builtIns, id, k);
    }
  }

  lemma ClosedNamesOnce(m: Manifest, builtIns: BuiltIns, k: nat)
    requires ClosedWorkflows(m, builtIns) && k < |builtIns.workflows + m.workflows|
    ensures OnlyNamed(builtIns.workflows + m.workflows, (builtIns.workflows + m.workflows)[k].metadata.id, k)
  {
    hide WellScoped;
    var all := builtIns.workflows + m.workflows;
    forall j | 0 <= j < |all| && all[j].metadata.id == all[k].metadata.id ensures j == k {
      assert Ids(all)[j] == Ids(all)[k];
    }
  }

  lemma NamesInAll(m: Manifest, builtIns: BuiltIns, id: string, k: int)
    requires Names(builtIns, m.workflows, |m.workflows|, id, k)
    ensures 0 <= k < |m.workflows| && m.workflows[k].metadata.id == id
    ensures (builtIns.workflows + m.workflows)[|builtIns.workflows| + k] == m.workflows[k]
  {
    hide WellScoped;
  }

  lemma OnlyNamedResolves(m: Manifest, builtIns: BuiltIns, id: string, k: nat)
    requires ClosedWorkflows(m, builtIns) && OnlyNamed(builtIns.workflows + m.workflows, id, k)
    ensures ResolvesTo(builtIns, m.workflows, |m.workflows|, id, (builtIns.workflows + m.workflows)[k].inputs)
  {
    hide WellScoped;
    var built, own, all := builtIns.workflows, m.workflows, builtIns.workflows + m.workflows;
    if k < |built| {
      assert all[k] == built[k];
    } else {
      var i := k - |built|;
      assert all[k] == own[i];
      forall j | 0 <= j < |built| ensures Ids(built)[j] != id {
        assert all[j] == built[j];
      }
      forall j | 0 <= j < i ensures own[j].metadata.id != id {
        assert all[|built| + j] == own[j];
      }
      assert Names(builtIns, own, |own|, id, i);
    }
  }

  lemma WorkflowInputsAreDistinct(m: Manifest, builtIns: BuiltIns, k: nat)
    requires builtIns.Sound() && ClosedWorkflows(m, builtIns) && k < |builtIns.workflows + m.workflows|
    ensures
      var inputs := (builtIns.workflows + m.workflows)[k].inputs;
      DistinctInputs(inputs, |inputs|)
  {
    hide Blames, GoodSteps, GoodHeader;
    var all := builtIns.workflows + m.workflows;
    assert WellScoped(all[k]) by {
      hide WellScoped;
      var n := |builtIns.workflows|;
      assert all[k] == if k < n then builtIns.workflows[k] else m.workflows[k - n];
    }
  }

  /** Among closed workflows, a routine of its own validity has no defect in its
      source exactly when one workflow's inputs pair off with its own. */
  lemma SourceCloses(m: Manifest, builtIns: BuiltIns, routine: Routine)
    requires builtIns.Sound() && ClosedWorkflows(m, builtIns) && GoodRoutine(routine)
    ensures ClosedSource(builtIns.workflows + m.workflows, routine) <==>
      (!ReferenceDefect(m, builtIns, routine, MissingWorkflowReference)
       && !ReferenceDefect(m, builtIns, routine, InvalidReviewRoutineReference))
  {
    hide WellScoped, ClosedWorkflows, ResolvesTo, InputFields, SameSignatures, Names;
    if routine.source.FromWorkflow? {
      var all := builtIns.workflows + m.workflows;
      var id := routine.source.workflowId;
      forall inputs
        ensures ResolvesTo(builtIns, m.workflows, |m.workflows|, id, inputs) <==>
          exists k :: OnlyNamed(all, id, k) && all[k].inputs == inputs
      {
        ResolvesToOnlyNamed(m, builtIns, id, inputs);
      }
      if k :| OnlyNamed(all, id, k) {
        WorkflowInputsAreDistinct(m, builtIns, k);
        SignaturesPairUp(routine.inputs, all[k].inputs);
        assert forall j :: OnlyNamed(all, id, j) ==> j == k;
        assert ResolvesTo(builtIns, m.workflows, |m.workflows|, id, all[k].inputs);
      }
    }
  }

  lemma RoutinesClose(m: Manifest, builtIns: BuiltIns)
    requires builtIns.Sound() && ClosedWorkflows(m, builtIns)
    ensures (forall i, x :: !RoutineDefect(m, builtIns, i, x)) <==> ClosedRoutines(m, builtIns)
  {
    hide GoodRoutine, ReferenceDefect, ClosedWorkflows, ClosedSource;
    var ids := RoutineIds(m.routines);
    DistinctByPrefix(ids);
    forall i | 0 <= i < |m.routines|
      ensures (forall x :: !RoutineDefect(m, builtIns, i, x)) <==>
        ClosedRoutine(m, builtIns, m.routines[i]) && ids[i] !in ids[..i]
    {
      RoutineCloses(m, builtIns, i);
    }
  }

  lemma RoutineCloses(m: Manifest, builtIns: BuiltIns, i: nat)
    requires builtIns.Sound() && ClosedWorkflows(m, builtIns) && i < |m.routines|
    ensures (forall x :: !RoutineDefect(m, builtIns, i, x)) <==>
      (ClosedRoutine(m, builtIns, m.routines[i]) && RoutineIds(m.routines)[i] !in RoutineIds(m.routines)[..i])
  {
    hide GoodRoutine, ClosedWorkflows, ClosedSource, ReferenceDefect;
    var routine, id := m.routines[i], m.routines[i].metadata.id;
    ReferencesClose(m, builtIns, routine);
    if forall x :: !RoutineDefect(m, builtIns, i, x) {
      assert !RoutineDefect(m, builtIns, i, Issue(InvalidReviewRoutine, id));
      assert !RoutineDefect(m, builtIns, i, Issue(DuplicateReviewRoutineId, id));
      assert !RoutineDefect(m, builtIns, i, Issue(MissingWorkflowReference, id));
      assert !RoutineDefect(m, builtIns, i, Issue(InvalidReviewRoutineReference, id));
      assert !RoutineDefect(m, builtIns, i, Issue(MissingReportProfileReference, id));
    }
  }

  lemma ReferencesClose(m: Manifest, builtIns: BuiltIns, routine: Routine)
    requires builtIns.Sound() && ClosedWorkflows(m, builtIns)
    ensures forall kind :: ReferenceDefect(m, builtIns, routine, kind) ==>
      kind in {MissingWorkflowReference, InvalidReviewRoutineReference, MissingReportProfileReference}
    ensures ReferenceDefect(m, builtIns, routine, MissingReportProfileReference) <==>
      exists profileId :: NamesProfile(routine, profileId) && profileId !in ProfileIds(m.profiles)
    ensures GoodRoutine(routine) ==>
      (ClosedSource(builtIns.workflows + m.workflows, routine) <==>
       !ReferenceDefect(m, builtIns, routine, MissingWorkflowReference)
       && !ReferenceDefect(m, builtIns, routine, InvalidReviewRoutineReference))
  {
    hide GoodRoutine, ClosedWorkflows, ClosedSource, ResolvesTo, SameSignatures;
    if GoodRoutine(routine) {
      SourceCloses(m, builtIns, routine);
    }
  }

  /** A manifest has no defect exactly when it is closed. */
  lemma DefectFreeIsClosed(m: Manifest, builtIns: BuiltIns)
    requires builtIns.Sound()
    ensures (forall x :: !Defect(m, builtIns, x)) <==> Closed(m, builtIns)
  {
    hide ManifestDefect, WorkflowDefect, ProfileDefect, RoutineDefect, EntrypointDefect;
    hide Headed, ClosedWorkflows, ClosedProfiles, ClosedRoutines, ClosedEntrypoints;
    HeaderCloses(m);
    WorkflowsClose(m, builtIns);
    ProfilesClose(m);
    if ClosedWorkflows(m, builtIns) {
      RoutinesClose(m, builtIns);
    }
    EntrypointsClose(m.entrypoints, RoutineIds(m.routines));
    if forall x :: !Defect(m, builtIns, x) {
      forall x ensures !ManifestDefect(m, x) {
        assert !Defect(m, builtIns, x);
      }
      forall i, x
        ensures !WorkflowDefect(m, builtIns, i, x) && !ProfileDefect(m, i, x) && !RoutineDefect(m, builtIns, i, x)
      {
        assert !Defect(m, builtIns, x);
      }
      forall i, x ensures !EntrypointDefect(m.entrypoints, RoutineIds(m.routines), i, x) {
        assert !Defect(m, builtIns, x);
      }
    }
  }
}
