/** Workflow specifications of workflow.rs and validation.rs: the checks a
    specification and its input assignments pass, and the declarative scoping
    rules those checks decide. */
module Workflow {
  import opened Basics
  import opened Text

  datatype InputKind = NoteTarget | FocusTarget
  datatype InputSpec = InputSpec(inputId: string, title: string, summary: Option<string>, kind: InputKind)
  datatype Metadata = Metadata(id: string, title: string, summary: Option<string>)

  datatype ResolveTarget =
    | Id(id: string) | Title(title: string) | Reference(reference: string) | NodeKey(nodeKey: string)
    | Input(inputId: string)
  datatype Assignment = Assignment(inputId: string, target: ResolveTarget)

  datatype Lens = Structure | Refs | Time | Tasks | Bridges | Dormant | Unresolved
  datatype ExploreFocus = FocusNodeKey(nodeKey: string) | FocusInput(inputId: string) | ResolvedStep(stepId: string)
  datatype SaveSource = ExploreSource(stepId: string) | CompareSource(stepId: string)

  datatype StepKind = Resolve | Explore | Compare | ArtifactRun | ArtifactSave
  datatype Payload =
    | ResolveStep(target: ResolveTarget)
    | ExploreStep(focus: ExploreFocus, lens: Lens, limit: nat, unique: bool)
    | CompareStep(left: string, right: string, group: string, compareLimit: nat)
    | ArtifactRunStep(artifactId: string)
    | ArtifactSaveStep(source: SaveSource, metadata: Metadata, overwrite: bool)
  {
    function Kind(): StepKind {
      match this
      case ResolveStep(_) => Resolve
      case ExploreStep(_, _, _, _) => Explore
      case CompareStep(_, _, _, _) => Compare
      case ArtifactRunStep(_) => ArtifactRun
      case ArtifactSaveStep(_, _, _) => ArtifactSave
    }
  }

  datatype Step = Step(stepId: string, payload: Payload)
  datatype Spec = Spec(metadata: Metadata, version: nat, inputs: seq<InputSpec>, steps: seq<Step>)

  const SUPPORTED_VERSION := 1

  // ---- Well-formed fields ----

  predicate HasText(s: string) {
    Trim(s) != []
  }

  predicate IsIdentifier(s: string) {
    HasText(s) && Trim(s) == s
  }

  predicate HasMetadata(m: Metadata) {
    IsIdentifier(m.id) && HasText(m.title) && (m.summary.Some? ==> HasText(m.summary.value))
  }

  predicate InputFields(input: InputSpec) {
    IsIdentifier(input.inputId) && HasText(input.title) && (input.summary.Some? ==> HasText(input.summary.value))
  }

  predicate TargetFields(target: ResolveTarget) {
    match target
    case Id(id) => HasText(id)
    case Title(title) => HasText(title)
    case Reference(reference) => HasText(reference)
    case NodeKey(nodeKey) => HasText(nodeKey)
    case Input(inputId) => IsIdentifier(inputId)
  }

  predicate PayloadFields(payload: Payload) {
    match payload
    case ResolveStep(target) => TargetFields(target)
    case ExploreStep(focus, lens, _, unique) =>
      && (match focus
          case FocusNodeKey(nodeKey) => HasText(nodeKey)
          case FocusInput(inputId) => IsIdentifier(inputId)
          case ResolvedStep(stepId) => IsIdentifier(stepId))
      && (unique ==> lens == Structure)
    case CompareStep(left, right, _, _) => IsIdentifier(left) && IsIdentifier(right) && left != right
    case ArtifactRunStep(artifactId) => IsIdentifier(artifactId)
    case ArtifactSaveStep(source, metadata, _) => IsIdentifier(source.stepId) && HasMetadata(metadata)
  }

  predicate StepFields(step: Step) {
    IsIdentifier(step.stepId) && PayloadFields(step.payload)
  }

  /** An identifier has no whitespace at its ends; other text has to hold something
      else than whitespace. */
  lemma FieldsAre(s: string)
    ensures IsIdentifier(s) <==> Plain(s)
    ensures HasText(s) <==> !AllWhitespace(s)
  {
    hide Trim;
    TrimLeaves(s);
  }

  /** What makes a step well formed by itself: what it names is an identifier or has
      text, it compares two different steps, and only structure is explored uniquely. */
  lemma StepFieldsAre(step: Step)
    ensures StepFields(step) <==>
      && Plain(step.stepId)
      && match step.payload
         case ResolveStep(Input(inputId)) => Plain(inputId)
         case ResolveStep(Id(text)) => !AllWhitespace(text)
         case ResolveStep(Title(text)) => !AllWhitespace(text)
         case ResolveStep(Reference(text)) => !AllWhitespace(text)
         case ResolveStep(NodeKey(text)) => !AllWhitespace(text)
         case ExploreStep(focus, lens, _, unique) =>
           && (focus.FocusNodeKey? ==> !AllWhitespace(focus.nodeKey))
           && (focus.FocusInput? ==> Plain(focus.inputId)) && (focus.ResolvedStep? ==> Plain(focus.stepId))
           && !(unique && lens != Structure)
         case CompareStep(left, right, _, _) => Plain(left) && Plain(right) && left != right
         case ArtifactRunStep(artifactId) => Plain(artifactId)
         case ArtifactSaveStep(source, metadata, _) => Plain(source.stepId) && MetadataIs(metadata)
  {
    hide IsIdentifier, HasText, Plain, AllWhitespace;
    forall s {
      FieldsAre(s);
    }
  }

  /** Metadata that names something: an identifier, a title, and a summary if any. */
  ghost predicate MetadataIs(m: Metadata) {
    Plain(m.id) && !AllWhitespace(m.title) && !(m.summary.Some? && AllWhitespace(m.summary.value))
  }

  lemma HeaderFieldsAre(m: Metadata, input: InputSpec)
    ensures HasMetadata(m) <==> MetadataIs(m)
    ensures InputFields(input) <==>
      Plain(input.inputId) && !AllWhitespace(input.title)
      && !(input.summary.Some? && AllWhitespace(input.summary.value))
  {
    hide IsIdentifier, HasText, Plain, AllWhitespace;
    forall s {
      FieldsAre(s);
    }
  }

  // ---- The declarative rules ----

  ghost predicate DistinctInputs(inputs: seq<InputSpec>, n: nat)
    requires n <= |inputs|
  {
    forall i, j :: 0 <= i < j < n ==> inputs[i].inputId != inputs[j].inputId
  }

  ghost predicate Declares(spec: Spec, inputId: string) {
    exists k :: 0 <= k < |spec.inputs| && spec.inputs[k].inputId == inputId
  }

  ghost predicate DeclaresKind(spec: Spec, inputId: string, kind: InputKind) {
    exists k :: 0 <= k < |spec.inputs| && spec.inputs[k].inputId == inputId && spec.inputs[k].kind == kind
  }

  ghost predicate EarlierStep(spec: Spec, i: nat, stepId: string, kind: StepKind)
    requires i <= |spec.steps|
  {
    exists j :: 0 <= j < i && spec.steps[j].stepId == stepId && spec.steps[j].payload.Kind() == kind
  }

  /** Every reference of step `i` names an earlier step of the kind it needs, or a
      declared input, and an explored input is a focus target. */
  ghost predicate InScope(spec: Spec, i: nat)
    requires i < |spec.steps|
  {
    match spec.steps[i].payload
    case ResolveStep(target) => target.Input? ==> Declares(spec, target.inputId)
    case ExploreStep(focus, _, _, _) =>
      (match focus
       case FocusNodeKey(_) => true
       case FocusInput(inputId) => DeclaresKind(spec, inputId, FocusTarget)
       case ResolvedStep(stepId) => EarlierStep(spec, i, stepId, Resolve))
    case CompareStep(left, right, _, _) => EarlierStep(spec, i, left, Resolve) && EarlierStep(spec, i, right, Resolve)
    case ArtifactRunStep(_) => true
    case ArtifactSaveStep(source, _, _) =>
      EarlierStep(spec, i, source.stepId, if source.ExploreSource? then Explore else Compare)
  }

  /** Step `j` comes before step `i` and has this identifier. */
  ghost predicate Precedes(spec: Spec, j: int, i: nat, stepId: string)
    requires i <= |spec.steps|
  {
    0 <= j < i && spec.steps[j].stepId == stepId
  }

  /** What each kind of step may refer to. */
  lemma ScopeIs(spec: Spec, i: nat)
    requires i < |spec.steps|
    ensures InScope(spec, i) <==>
      match spec.steps[i].payload
      case ResolveStep(Input(inputId)) => exists k :: 0 <= k < |spec.inputs| && spec.inputs[k].inputId == inputId
      case ResolveStep(_) => true
      case ExploreStep(FocusInput(inputId), _, _, _) =>
        exists k :: 0 <= k < |spec.inputs| && spec.inputs[k] == spec.inputs[k].(inputId := inputId, kind := FocusTarget)
      case ExploreStep(ResolvedStep(stepId), _, _, _) =>
        exists j :: Precedes(spec, j, i, stepId) && spec.steps[j].payload.ResolveStep?
      case ExploreStep(FocusNodeKey(_), _, _, _) => true
      case CompareStep(left, right, _, _) =>
        && (exists j :: Precedes(spec, j, i, left) && spec.steps[j].payload.ResolveStep?)
        && (exists j :: Precedes(spec, j, i, right) && spec.steps[j].payload.ResolveStep?)
      case ArtifactRunStep(_) => true
      case ArtifactSaveStep(ExploreSource(stepId), _, _) =>
        exists j :: Precedes(spec, j, i, stepId) && spec.steps[j].payload.ExploreStep?
      case ArtifactSaveStep(CompareSource(stepId), _, _) =>
        exists j :: Precedes(spec, j, i, stepId) && spec.steps[j].payload.CompareStep?
  {
    forall stepId, kind
      ensures EarlierStep(spec, i, stepId, kind) <==>
              exists j :: Precedes(spec, j, i, stepId) && spec.steps[j].payload.Kind() == kind
    {
      if j :| 0 <= j < i && spec.steps[j].stepId == stepId && spec.steps[j].payload.Kind() == kind {
        assert Precedes(spec, j, i, stepId);
      }
    }
    forall inputId
      ensures DeclaresKind(spec, inputId, FocusTarget) <==>
              exists k ::
                0 <= k < |spec.inputs| && spec.inputs[k] == spec.inputs[k].(inputId := inputId, kind := FocusTarget)
    {
      if k :| 0 <= k < |spec.inputs| && spec.inputs[k].inputId == inputId && spec.inputs[k].kind == FocusTarget {
        assert spec.inputs[k] == spec.inputs[k].(inputId := inputId, kind := FocusTarget);
      }
    }
    hide EarlierStep, DeclaresKind;
  }

  ghost predicate GoodInputs(inputs: seq<InputSpec>, n: nat)
    requires n <= |inputs|
  {
    (forall i :: 0 <= i < n ==> InputFields(inputs[i])) && DistinctInputs(inputs, n)
  }

  ghost predicate GoodSteps(spec: Spec, n: nat)
    requires n <= |spec.steps|
  {
    && (forall i :: 0 <= i < n ==> StepFields(spec.steps[i]) && InScope(spec, i))
    && (forall i, j :: 0 <= i < j < n ==> spec.steps[i].stepId != spec.steps[j].stepId)
  }

  predicate GoodHeader(spec: Spec) {
    spec.version == SUPPORTED_VERSION && HasMetadata(spec.metadata)
  }

  ghost predicate WellScoped(spec: Spec) {
    && GoodHeader(spec)
    && GoodInputs(spec.inputs, |spec.inputs|)
    && spec.steps != []
    && GoodSteps(spec, |spec.steps|)
  }

  // ---- The checks ----

  datatype SpecError =
    | UnsupportedVersion | InvalidMetadata
    | InvalidInput(index: nat) | DuplicateInput(index: nat)
    | NoSteps
    | InvalidStep(index: nat) | DuplicateStep(index: nat) | InvalidReference(index: nat)

  /** The rule an error names is the first one broken. */
  ghost predicate Blames(spec: Spec, error: SpecError) {
    match error
    case UnsupportedVersion => spec.version != SUPPORTED_VERSION
    case InvalidMetadata => spec.version == SUPPORTED_VERSION && !HasMetadata(spec.metadata)
    case InvalidInput(i) =>
      GoodHeader(spec) && i < |spec.inputs| && GoodInputs(spec.inputs, i) && !InputFields(spec.inputs[i])
    case DuplicateInput(i) =>
      && GoodHeader(spec) && i < |spec.inputs| && GoodInputs(spec.inputs, i) && InputFields(spec.inputs[i])
      && RepeatsInput(spec, i)
    case NoSteps => GoodHeader(spec) && GoodInputs(spec.inputs, |spec.inputs|) && spec.steps == []
    case InvalidStep(i) => ReachesStep(spec, i) && !StepFields(spec.steps[i])
    case DuplicateStep(i) => ReachesStep(spec, i) && StepFields(spec.steps[i]) && RepeatsStep(spec, i)
    case InvalidReference(i) =>
      ReachesStep(spec, i) && StepFields(spec.steps[i]) && !RepeatsStep(spec, i) && !InScope(spec, i)
  }

  ghost predicate RepeatsInput(spec: Spec, i: nat)
    requires i < |spec.inputs|
  {
    exists j :: 0 <= j < i && spec.inputs[j].inputId == spec.inputs[i].inputId
  }

  ghost predicate RepeatsStep(spec: Spec, i: nat)
    requires i < |spec.steps|
  {
    exists j :: 0 <= j < i && spec.steps[j].stepId == spec.steps[i].stepId
  }

  ghost predicate ReachesStep(spec: Spec, i: nat) {
    GoodHeader(spec) && GoodInputs(spec.inputs, |spec.inputs|) && i < |spec.steps| && GoodSteps(spec, i)
  }

  lemma GoodInputsShrink(spec: Spec, m: nat, n: nat)
    requires m < n <= |spec.inputs| && GoodInputs(spec.inputs, n)
    ensures GoodInputs(spec.inputs, m) && InputFields(spec.inputs[m]) && !RepeatsInput(spec, m)
  {
    hide InputFields;
  }

  lemma GoodStepsShrink(spec: Spec, m: nat, n: nat)
    requires m < n <= |spec.steps| && GoodSteps(spec, n)
    ensures GoodSteps(spec, m) && StepFields(spec.steps[m]) && !RepeatsStep(spec, m) && InScope(spec, m)
  {
    hide StepFields, InScope;
  }

  /** How far a check got before the rule an error names. */
  ghost function Reach(spec: Spec, error: SpecError): (nat, nat) {
    match error
    case UnsupportedVersion => (0, 0)
    case InvalidMetadata => (1, 0)
    case InvalidInput(i) => (2, i)
    case DuplicateInput(i) => (2, i)
    case NoSteps => (3, 0)
    case InvalidStep(i) => (4, i)
    case DuplicateStep(i) => (4, i)
    case InvalidReference(i) => (4, i)
  }

  lemma BlamedApart(spec: Spec, a: SpecError, b: SpecError)
    requires Blames(spec, a) && Blames(spec, b)
    requires
      || Reach(spec, a).0 < Reach(spec, b).0
      || (Reach(spec, a).0 == Reach(spec, b).0 && Reach(spec, a).1 <= Reach(spec, b).1)
    ensures a == b
  {
    hide InputFields, StepFields, InScope, HasMetadata, GoodInputs, GoodSteps, RepeatsInput, RepeatsStep;
    match a
    case InvalidInput(i) => BlamedInput(spec, i, b);
    case DuplicateInput(i) => BlamedInput(spec, i, b);
    case InvalidStep(i) => BlamedStep(spec, i, b);
    case DuplicateStep(i) => BlamedStep(spec, i, b);
    case InvalidReference(i) => BlamedStep(spec, i, b);
    case _ =>
  }

  lemma BlamedInput(spec: Spec, i: nat, b: SpecError)
    requires Blames(spec, b) && i < |spec.inputs| && (!InputFields(spec.inputs[i]) || RepeatsInput(spec, i))
    ensures Reach(spec, b).0 < 2 || (Reach(spec, b).0 == 2 && Reach(spec, b).1 <= i)
  {
    hide InputFields, StepFields, InScope, HasMetadata, GoodInputs, GoodSteps, RepeatsInput, RepeatsStep;
    var n := if b.InvalidInput? || b.DuplicateInput? then Reach(spec, b).1 else |spec.inputs|;
    if Reach(spec, b).0 >= 2 && i < n {
      GoodInputsShrink(spec, i, n);
    }
  }

  lemma BlamedStep(spec: Spec, i: nat, b: SpecError)
    requires Blames(spec, b) && i < |spec.steps|
    requires !StepFields(spec.steps[i]) || RepeatsStep(spec, i) || !InScope(spec, i)
    ensures Reach(spec, b).0 == 4 ==> Reach(spec, b).1 <= i
  {
    hide InputFields, StepFields, InScope, HasMetadata, GoodInputs, GoodSteps, RepeatsInput, RepeatsStep;
    if Reach(spec, b).0 == 4 && i < Reach(spec, b).1 {
      GoodStepsShrink(spec, i, Reach(spec, b).1);
    }
  }

  /** A specification has one first broken rule. */
  lemma BlameIsUnique(spec: Spec, a: SpecError, b: SpecError)
    requires Blames(spec, a) && Blames(spec, b)
    ensures a == b
  {
    hide Blames;
    var ra, rb := Reach(spec, a), Reach(spec, b);
    if ra.0 < rb.0 || (ra.0 == rb.0 && ra.1 <= rb.1) {
      BlamedApart(spec, a, b);
    } else {
      BlamedApart(spec, b, a);
    }
  }

  /** The kind recorded under an identifier, in the order it was recorded. */
  function KindOf<K>(seen: seq<(string, K)>, id: string): Option<K> {
    if seen == [] then None
    else if seen[0].0 == id then Some(seen[0].1)
    else KindOf(seen[1..], id)
  }

  predicate StepReference(seen: seq<(string, StepKind)>, stepId: string, expected: StepKind) {
    KindOf(seen, stepId) == Some(expected)
  }

  predicate References(payload: Payload, seen: seq<(string, StepKind)>, inputs: seq<(string, InputKind)>) {
    match payload
    case ResolveStep(target) => target.Input? ==> KindOf(inputs, target.inputId).Some?
    case ArtifactRunStep(_) => true
    case ExploreStep(focus, _, _, _) =>
      (match focus
       case FocusNodeKey(_) => true
       case FocusInput(inputId) => KindOf(inputs, inputId) == Some(FocusTarget)
       case ResolvedStep(stepId) => StepReference(seen, stepId, Resolve))
    case CompareStep(left, right, _, _) => StepReference(seen, left, Resolve) && StepReference(seen, right, Resolve)
    case ArtifactSaveStep(source, _, _) =>
      StepReference(seen, source.stepId, if source.ExploreSource? then Explore else Compare)
  }

  lemma {:induction false} KindOfFinds<K>(seen: seq<(string, K)>, id: string, k: nat)
    requires forall i, j :: 0 <= i < j < |seen| ==> seen[i].0 != seen[j].0
    requires k < |seen| && seen[k].0 == id
    ensures KindOf(seen, id) == Some(seen[k].1)
  {
    if k > 0 {
      KindOfFinds(seen[1..], id, k - 1);
    }
  }

  lemma {:induction false} KindOfFound<K>(seen: seq<(string, K)>, id: string) returns (k: nat)
    requires KindOf(seen, id).Some?
    ensures k < |seen| && seen[k] == (id, KindOf(seen, id).value)
  {
    if seen[0].0 == id {
      k := 0;
    } else {
      k := KindOfFound(seen[1..], id);
      k := k + 1;
    }
  }

  ghost predicate RecordsInputs(spec: Spec, seen: seq<(string, InputKind)>, n: nat)
    requires n <= |spec.inputs|
  {
    |seen| == n && forall i :: 0 <= i < n ==> seen[i] == (spec.inputs[i].inputId, spec.inputs[i].kind)
  }

  ghost predicate RecordsSteps(spec: Spec, seen: seq<(string, StepKind)>, n: nat)
    requires n <= |spec.steps|
  {
    |seen| == n && forall i :: 0 <= i < n ==> seen[i] == (spec.steps[i].stepId, spec.steps[i].payload.Kind())
  }

  lemma StepReferenceIsEarlier(spec: Spec, seen: seq<(string, StepKind)>, n: nat, stepId: string, kind: StepKind)
    requires n <= |spec.steps| && RecordsSteps(spec, seen, n) && GoodSteps(spec, n)
    ensures StepReference(seen, stepId, kind) <==> EarlierStep(spec, n, stepId, kind)
  {
    hide StepFields, InScope, KindOf;
    if StepReference(seen, stepId, kind) {
      var k := KindOfFound(seen, stepId);
      assert spec.steps[k].stepId == stepId;
    }
    if EarlierStep(spec, n, stepId, kind) {
      var j :| 0 <= j < n && spec.steps[j].stepId == stepId && spec.steps[j].payload.Kind() == kind;
      KindOfFinds(seen, stepId, j);
    }
  }

  lemma InputReferenceIsDeclared(spec: Spec, seen: seq<(string, InputKind)>, inputId: string, kind: InputKind)
    requires RecordsInputs(spec, seen, |spec.inputs|) && GoodInputs(spec.inputs, |spec.inputs|)
    ensures KindOf(seen, inputId).Some? <==> Declares(spec, inputId)
    ensures KindOf(seen, inputId) == Some(kind) <==> DeclaresKind(spec, inputId, kind)
  {
    hide InputFields, KindOf;
    if KindOf(seen, inputId).Some? {
      var k := KindOfFound(seen, inputId);
      assert spec.inputs[k].inputId == inputId;
    }
    if Declares(spec, inputId) {
      var k :| 0 <= k < |spec.inputs| && spec.inputs[k].inputId == inputId;
      KindOfFinds(seen, inputId, k);
    }
  }

  lemma ReferencesAreScope(spec: Spec, inputs: seq<(string, InputKind)>, steps: seq<(string, StepKind)>, n: nat)
    requires n < |spec.steps| && GoodInputs(spec.inputs, |spec.inputs|) && GoodSteps(spec, n)
    requires RecordsInputs(spec, inputs, |spec.inputs|) && RecordsSteps(spec, steps, n)
    ensures References(spec.steps[n].payload, steps, inputs) <==> InScope(spec, n)
  {
    hide GoodSteps, GoodInputs, RecordsSteps, RecordsInputs, EarlierStep, Declares, DeclaresKind, StepReference, KindOf;
    match spec.steps[n].payload
    case ResolveStep(target) =>
      if target.Input? {
        InputReferenceIsDeclared(spec, inputs, target.inputId, FocusTarget);
      }
    case ExploreStep(focus, _, _, _) =>
      if focus.FocusInput? {
        InputReferenceIsDeclared(spec, inputs, focus.inputId, FocusTarget);
      } else if focus.ResolvedStep? {
        StepReferenceIsEarlier(spec, steps, n, focus.stepId, Resolve);
      }
    case CompareStep(left, right, _, _) =>
      StepReferenceIsEarlier(spec, steps, n, left, Resolve);
      StepReferenceIsEarlier(spec, steps, n, right, Resolve);
    case ArtifactRunStep(_) =>
    case ArtifactSaveStep(source, _, _) =>
      StepReferenceIsEarlier(spec, steps, n, source.stepId, if source.ExploreSource? then Explore else Compare);
  }

  predicate Seen<K>(seen: seq<(string, K)>, id: string) {
    exists i :: 0 <= i < |seen| && seen[i].0 == id
  }

  /** A specification passes exactly when it meets the declarative rules, and an
      error names the first rule it breaks. */
  method ValidationError(spec: Spec) returns (error: Option<SpecError>)
    ensures error.None? <==> WellScoped(spec)
    ensures error.Some? ==> Blames(spec, error.value)
  {
    hide References, InScope, InputFields, StepFields, HasMetadata, KindOf;
    if spec.version == 0 || spec.version > SUPPORTED_VERSION {
      return Some(UnsupportedVersion);
    }
    if !HasMetadata(spec.metadata) {
      return Some(InvalidMetadata);
    }
    var seenInputs: seq<(string, InputKind)> := [];
    for index := 0 to |spec.inputs|
      invariant RecordsInputs(spec, seenInputs, index) && GoodInputs(spec.inputs, index)
    {
      var input := spec.inputs[index];
      if !InputFields(input) {
        return Some(InvalidInput(index));
      }
      if Seen(seenInputs, input.inputId) {
        return Some(DuplicateInput(index));
      }
      seenInputs := seenInputs + [(input.inputId, input.kind)];
    }
    if spec.steps == [] {
      return Some(NoSteps);
    }
    var seen: seq<(string, StepKind)> := [];
    for index := 0 to |spec.steps|
      invariant RecordsSteps(spec, seen, index) && GoodSteps(spec, index)
    {
      var step := spec.steps[index];
      ReferencesAreScope(spec, seenInputs, seen, index);
      if !StepFields(step) {
        return Some(InvalidStep(index));
      }
      if Seen(seen, step.stepId) {
        return Some(DuplicateStep(index));
      }
      if !References(step.payload, seen, seenInputs) {
        return Some(InvalidReference(index));
      }
      seen := seen + [(step.stepId, step.payload.Kind())];
    }
    error := None;
  }

  // ---- Input assignments ----

  datatype AssignmentError =
    | InvalidAssignment(index: nat) | DuplicateAssignment(index: nat) | UnknownInput(index: nat)
    | Unassigned(inputId: string)

  predicate AssignmentFields(assignment: Assignment) {
    IsIdentifier(assignment.inputId) && !assignment.target.Input? && TargetFields(assignment.target)
  }

  /** An assignment names its input and a target that is no input itself. */
  lemma AssignmentFieldsAre(assignment: Assignment)
    ensures AssignmentFields(assignment) <==>
      && Plain(assignment.inputId)
      && match assignment.target
         case Input(_) => false
         case Id(text) => !AllWhitespace(text)
         case Title(text) => !AllWhitespace(text)
         case Reference(text) => !AllWhitespace(text)
         case NodeKey(text) => !AllWhitespace(text)
  {
    hide IsIdentifier, HasText, Plain, AllWhitespace;
    forall s {
      FieldsAre(s);
    }
  }

  ghost predicate GoodAssignments(spec: Spec, assignments: seq<Assignment>, n: nat)
    requires n <= |assignments|
  {
    && (forall i :: 0 <= i < n ==> AssignmentFields(assignments[i]) && Declares(spec, assignments[i].inputId))
    && (forall i, j :: 0 <= i < j < n ==> assignments[i].inputId != assignments[j].inputId)
  }

  ghost predicate Assigns(assignments: seq<Assignment>, inputId: string) {
    exists k :: 0 <= k < |assignments| && assignments[k].inputId == inputId
  }

  /** Every declared input is assigned once, to a concrete target, and nothing
      undeclared is. */
  ghost predicate FullyAssigned(spec: Spec, assignments: seq<Assignment>) {
    && GoodAssignments(spec, assignments, |assignments|)
    && forall k :: 0 <= k < |spec.inputs| ==> Assigns(assignments, spec.inputs[k].inputId)
  }

  ghost predicate BlamesAssignment(spec: Spec, assignments: seq<Assignment>, error: AssignmentError) {
    match error
    case InvalidAssignment(i) =>
      i < |assignments| && GoodAssignments(spec, assignments, i) && !AssignmentFields(assignments[i])
    case DuplicateAssignment(i) =>
      i < |assignments| && GoodAssignments(spec, assignments, i) && AssignmentFields(assignments[i])
      && RepeatsAssignment(assignments, i)
    case UnknownInput(i) =>
      i < |assignments| && GoodAssignments(spec, assignments, i) && AssignmentFields(assignments[i])
      && !RepeatsAssignment(assignments, i) && !Declares(spec, assignments[i].inputId)
    case Unassigned(inputId) =>
      GoodAssignments(spec, assignments, |assignments|)
      && exists k :: FirstUnassigned(spec, assignments, k) && spec.inputs[k].inputId == inputId
  }

  ghost predicate RepeatsAssignment(assignments: seq<Assignment>, i: nat)
    requires i < |assignments|
  {
    exists j :: 0 <= j < i && assignments[j].inputId == assignments[i].inputId
  }

  ghost predicate FirstUnassigned(spec: Spec, assignments: seq<Assignment>, k: int) {
    && 0 <= k < |spec.inputs| && !Assigns(assignments, spec.inputs[k].inputId)
    && forall j :: 0 <= j < k ==> Assigns(assignments, spec.inputs[j].inputId)
  }

  /** Assignments have one first broken rule. */
  lemma AssignmentBlameIsUnique(spec: Spec, assignments: seq<Assignment>, a: AssignmentError, b: AssignmentError)
    requires BlamesAssignment(spec, assignments, a) && BlamesAssignment(spec, assignments, b)
    ensures a == b
  {
    hide AssignmentFields, Declares, Assigns;
    if a.Unassigned? && b.Unassigned? {
      var j :| FirstUnassigned(spec, assignments, j) && spec.inputs[j].inputId == a.inputId;
      var k :| FirstUnassigned(spec, assignments, k) && spec.inputs[k].inputId == b.inputId;
      assert j <= k && k <= j;
    } else if !a.Unassigned? {
      AssignmentBlamedOnce(spec, assignments, a, b);
    } else {
      AssignmentBlamedOnce(spec, assignments, b, a);
    }
  }

  lemma AssignmentBlamedOnce(spec: Spec, assignments: seq<Assignment>, a: AssignmentError, b: AssignmentError)
    requires BlamesAssignment(spec, assignments, a) && BlamesAssignment(spec, assignments, b) && !a.Unassigned?
    ensures a == b
  {
    hide AssignmentFields, Declares, Assigns, FirstUnassigned;
    var i, n := a.index, if b.Unassigned? then |assignments| else b.index;
    assert GoodAssignments(spec, assignments, i) && GoodAssignments(spec, assignments, n);
  }

  method InputAssignmentsError(spec: Spec, assignments: seq<Assignment>) returns (error: Option<AssignmentError>)
    ensures error.None? <==> FullyAssigned(spec, assignments)
    ensures error.Some? ==> BlamesAssignment(spec, assignments, error.value)
  {
    hide AssignmentFields;
    var seen: seq<string> := [];
    for index := 0 to |assignments|
      invariant |seen| == index && forall i :: 0 <= i < index ==> seen[i] == assignments[i].inputId
      invariant GoodAssignments(spec, assignments, index)
    {
      var assignment := assignments[index];
      if !AssignmentFields(assignment) {
        return Some(InvalidAssignment(index));
      }
      if assignment.inputId in seen {
        return Some(DuplicateAssignment(index));
      }
      if forall k :: 0 <= k < |spec.inputs| ==> spec.inputs[k].inputId != assignment.inputId {
        return Some(UnknownInput(index));
      }
      seen := seen + [assignment.inputId];
    }
    for k := 0 to |spec.inputs|
      invariant forall i :: 0 <= i < k ==> Assigns(assignments, spec.inputs[i].inputId)
    {
      if spec.inputs[k].inputId !in seen {
        return Some(Unassigned(spec.inputs[k].inputId));
      }
    }
    error := None;
  }
}
