/** Report profiles of reports.rs, and the checks validation.rs makes of one. */
module ReportProfiles {
  import opened Basics
  import opened Text
  import opened Workflow
  import opened ReviewRuns

  datatype Subject = ReviewSubject | RoutineSubject | AuditSubject | WorkflowSubject | DiffSubject
  datatype Mode = SummaryMode | DetailMode
  datatype Bucket = AddedBucket | RemovedBucket | UnalteredBucket | ContentBucket | StatusBucket

  datatype LineKind =
    | WorkflowLine | StepLine | AuditLine | EntryLine | ReviewLine | FindingLine | RoutineLine | DiffLine
    | AddedLine | RemovedLine | UnalteredLine | ContentLine | StatusLine
    | UnsupportedLine(text: string)

  datatype Profile = Profile(metadata: Metadata, subjects: seq<Subject>, mode: Mode, statusFilters: Option<seq<Status>>,
                             diffBuckets: Option<seq<Bucket>>, lineKinds: Option<seq<LineKind>>)

  function Label(kind: LineKind): string {
    match kind
    case WorkflowLine => "workflow"
    case StepLine => "step"
    case AuditLine => "audit"
    case EntryLine => "entry"
    case ReviewLine => "review"
    case FindingLine => "finding"
    case RoutineLine => "routine"
    case DiffLine => "diff"
    case AddedLine => "added"
    case RemovedLine => "removed"
    case UnalteredLine => "unchanged"
    case ContentLine => "content-changed"
    case StatusLine => "status-changed"
    case UnsupportedLine(text) => text
  }

  function FromLabel(value: string): LineKind {
    match value
    case "workflow" => WorkflowLine
    case "step" => StepLine
    case "audit" => AuditLine
    case "entry" => EntryLine
    case "review" => ReviewLine
    case "finding" => FindingLine
    case "routine" => RoutineLine
    case "diff" => DiffLine
    case "added" => AddedLine
    case "removed" => RemovedLine
    case "unchanged" => UnalteredLine
    case "content-changed" => ContentLine
    case "status-changed" => StatusLine
    case _ => UnsupportedLine(value)
  }

  predicate IsDetail(kind: LineKind) {
    && !kind.UnsupportedLine? && kind != WorkflowLine && kind != AuditLine && kind != ReviewLine
    && kind != RoutineLine && kind != DiffLine
  }

  predicate Supports(subject: Subject, kind: LineKind) {
    match subject
    case WorkflowSubject => kind == WorkflowLine || kind == StepLine
    case AuditSubject => kind == AuditLine || kind == EntryLine
    case ReviewSubject => kind == ReviewLine || kind == FindingLine
    case RoutineSubject => kind == RoutineLine || kind == StepLine || kind == ReviewLine || kind == FindingLine
    case DiffSubject =>
      || kind == DiffLine || kind == AddedLine || kind == RemovedLine || kind == UnalteredLine
      || kind == ContentLine || kind == StatusLine
  }

  predicate HasStatuses(subject: Subject) {
    subject == ReviewSubject || subject == RoutineSubject || subject == DiffSubject
  }

  /** Labels are read back as the kinds they name, so distinct labels are distinct
      kinds. */
  lemma LabelsRoundTrip(kind: LineKind, value: string)
    ensures Label(FromLabel(value)) == value
    ensures !kind.UnsupportedLine? ==> FromLabel(Label(kind)) == kind
  {
  }

  const WORKFLOW_LINES := {WorkflowLine, StepLine}
  const AUDIT_LINES := {AuditLine, EntryLine}
  const REVIEW_LINES := {ReviewLine, FindingLine}
  const DIFF_LINES := {DiffLine, AddedLine, RemovedLine, UnalteredLine, ContentLine, StatusLine}

  /** Which lines a subject reports. A routine reports its steps and its review; every
      subject has one line for the whole, and the rest are detail. */
  lemma LinesOfSubjects(subject: Subject, kind: LineKind)
    ensures Supports(subject, kind) <==>
      match subject
      case WorkflowSubject => kind in WORKFLOW_LINES
      case AuditSubject => kind in AUDIT_LINES
      case ReviewSubject => kind in REVIEW_LINES
      case RoutineSubject => kind == RoutineLine || kind == StepLine || kind in REVIEW_LINES
      case DiffSubject => kind in DIFF_LINES
    ensures IsDetail(kind) <==>
      kind in {StepLine, EntryLine, FindingLine} || (kind in DIFF_LINES && kind != DiffLine)
    ensures HasStatuses(subject) <==> subject != AuditSubject && subject != WorkflowSubject
  {
  }

  // ---- The rules ----

  ghost predicate GoodSubjects(subjects: seq<Subject>) {
    subjects != [] && Distinct(subjects)
  }

  ghost predicate GoodFilters(profile: Profile) {
    profile.statusFilters.Some? ==>
      && profile.statusFilters.value != [] && Distinct(profile.statusFilters.value)
      && exists i :: 0 <= i < |profile.subjects| && HasStatuses(profile.subjects[i])
  }

  ghost predicate GoodBuckets(profile: Profile) {
    profile.diffBuckets.Some? ==>
      profile.diffBuckets.value != [] && Distinct(profile.diffBuckets.value) && DiffSubject in profile.subjects
  }

  /** A line kind some subject reports, and no detail in a summary. */
  ghost predicate Reportable(profile: Profile, kind: LineKind) {
    && (exists i :: 0 <= i < |profile.subjects| && Supports(profile.subjects[i], kind))
    && (profile.mode == SummaryMode ==> !IsDetail(kind))
  }

  ghost predicate GoodLines(profile: Profile, kinds: seq<LineKind>) {
    Distinct(kinds) && forall i :: 0 <= i < |kinds| ==> Reportable(profile, kinds[i])
  }

  ghost predicate GoodProfile(profile: Profile) {
    && HasMetadata(profile.metadata) && GoodSubjects(profile.subjects)
    && GoodFilters(profile) && GoodBuckets(profile)
    && (profile.lineKinds.Some? ==> profile.lineKinds.value != [] && GoodLines(profile, profile.lineKinds.value))
  }

  // ---- The checks ----

  method AllDistinct<T(==)>(items: seq<T>) returns (distinct: bool)
    ensures distinct <==> Distinct(items)
  {
    for n := 0 to |items|
      invariant Distinct(items[..n])
    {
      if items[n] in items[..n] {
        return false;
      }
    }
    assert items[..|items|] == items;
    distinct := true;
  }

  method LinesAreGood(profile: Profile, kinds: seq<LineKind>) returns (good: bool)
    ensures good <==> GoodLines(profile, kinds)
  {
    hide IsDetail, Supports, HasText, Label, FromLabel;
    var seen: seq<string> := [];
    for n := 0 to |kinds|
      invariant |seen| == n && forall i :: 0 <= i < n ==> seen[i] == Label(kinds[i])
      invariant GoodLines(profile, kinds[..n])
      invariant forall i :: 0 <= i < n ==> !kinds[i].UnsupportedLine?
    {
      var kind := kinds[n];
      UnsupportedIsNotReportable(profile, kind);
      if !HasText(Label(kind)) || kind.UnsupportedLine? {
        return false;
      }
      LabelTellsApart(kinds[..n], kind);
      if Label(kind) in seen {
        return false;
      }
      if profile.mode.SummaryMode? && IsDetail(kind) {
        return false;
      }
      if !exists i :: 0 <= i < |profile.subjects| && Supports(profile.subjects[i], kind) {
        return false;
      }
      assert Reportable(profile, kind);
      seen := seen + [Label(kind)];
    }
    assert kinds[..|kinds|] == kinds;
    good := true;
  }

  lemma UnsupportedIsNotReportable(profile: Profile, kind: LineKind)
    ensures kind.UnsupportedLine? ==> !Reportable(profile, kind)
    ensures !HasText(Label(kind)) ==> kind.UnsupportedLine?
  {
    LabelsHaveText(kind);
  }

  lemma LabelsHaveText(kind: LineKind)
    ensures !kind.UnsupportedLine? ==> HasText(Label(kind))
  {
    if !kind.UnsupportedLine? {
      TrimKeeps(Label(kind));
    }
  }

  lemma LabelTellsApart(kinds: seq<LineKind>, kind: LineKind)
    requires !kind.UnsupportedLine? && forall i :: 0 <= i < |kinds| ==> !kinds[i].UnsupportedLine?
    ensures (exists i :: 0 <= i < |kinds| && Label(kinds[i]) == Label(kind)) <==> kind in kinds
  {
    hide Label, FromLabel;
    forall i | 0 <= i < |kinds| ensures Label(kinds[i]) == Label(kind) <==> kinds[i] == kind {
      LabelsRoundTrip(kinds[i], []);
      LabelsRoundTrip(kind, []);
    }
  }

  method ProfileIsValid(profile: Profile) returns (valid: bool)
    ensures valid <==> GoodProfile(profile)
  {
    hide HasMetadata, HasStatuses, GoodLines, Distinct;
    if !HasMetadata(profile.metadata) || profile.subjects == [] {
      return false;
    }
    var subjectsDistinct := AllDistinct(profile.subjects);
    if !subjectsDistinct {
      return false;
    }
    if profile.statusFilters.Some? {
      var filters := profile.statusFilters.value;
      if filters == [] || !exists i :: 0 <= i < |profile.subjects| && HasStatuses(profile.subjects[i]) {
        return false;
      }
      var filtersDistinct := AllDistinct(filters);
      if !filtersDistinct {
        return false;
      }
    }
    if profile.diffBuckets.Some? {
      var buckets := profile.diffBuckets.value;
      if buckets == [] || DiffSubject !in profile.subjects {
        return false;
      }
      var bucketsDistinct := AllDistinct(buckets);
      if !bucketsDistinct {
        return false;
      }
    }
    if profile.lineKinds.Some? {
      if profile.lineKinds.value == [] {
        return false;
      }
      valid := LinesAreGood(profile, profile.lineKinds.value);
      return;
    }
    valid := true;
  }

  /** A valid profile in summary mode selects no lines for single steps, entries,
      findings or changes. */
  lemma SummaryLines(profile: Profile, kind: LineKind)
    requires GoodProfile(profile) && profile.mode == SummaryMode
    requires profile.lineKinds.Some? && kind in profile.lineKinds.value
    ensures kind in {WorkflowLine, AuditLine, ReviewLine, RoutineLine, DiffLine}
  {
    hide HasMetadata;
    var i :| 0 <= i < |profile.lineKinds.value| && profile.lineKinds.value[i] == kind;
    assert Reportable(profile, kind);
  }
}
