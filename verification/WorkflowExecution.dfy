/** Running a workflow, as the engine's handler for it does. The queries it makes
    of the engine are uninterpreted: any of them may fail at any step. */
module WorkflowExecution {
  import opened Basics
  import opened Workflow

  datatype Saved =
    | LensView(metadata: Metadata, focus: string, lens: Lens, limit: nat, unique: bool)
    | Comparison(metadata: Metadata, left: string, right: string, group: string, limit: nat)

  /** What the engine answers when step `n` asks. The step number lets an answer
      depend on everything earlier steps did. */
  datatype Engine = Engine(
    resolveNote: (nat, ResolveTarget) -> Option<string>,
    resolveNoteFromFocus: (nat, ResolveTarget) -> Option<string>,
    resolveFocus: (nat, ResolveTarget, Lens) -> Option<string>,
    explore: (nat, string, Lens, nat, bool) -> Option<string>,
    compare: (nat, string, string, nat) -> Option<string>,
    runArtifact: (nat, string) -> Option<string>,
    saveArtifact: (nat, Saved, bool) -> Option<string>)

  datatype StepState =
    | Resolved(node: string)
    | Explored(focus: string, lens: Lens, limit: nat, unique: bool, result: string)
    | Compared(left: string, right: string, group: string, compareLimit: nat, comparison: string)
    | ArtifactRan(artifact: string)
    | ArtifactSaved(artifact: string)
  {
    function Kind(): StepKind {
      match this
      case Resolved(_) => Resolve
      case Explored(_, _, _, _, _) => Explore
      case Compared(_, _, _, _, _) => Compare
      case ArtifactRan(_) => ArtifactRun
      case ArtifactSaved(_) => ArtifactSave
    }
  }

  datatype Report = Report(stepId: string, state: StepState)

  datatype ExecError =
    | BadSpec(specError: SpecError)
    | BadAssignments(assignmentError: AssignmentError)
    | Stuck(stepId: string)          // a reference that does not resolve
    | EngineFailed(stepId: string)   // the engine refused a query

  // ---- What each step means ----

  /** The target assigned to an input, and the kind it was declared with. */
  ghost predicate Bound(spec: Spec, assignments: seq<Assignment>, inputId: string, kind: InputKind,
                        target: ResolveTarget) {
    DeclaresKind(spec, inputId, kind) && Assignment(inputId, target) in assignments
  }

  /** What the engine resolves an assigned target to, by the kind of its input. */
  function ResolveAssigned(engine: Engine, n: nat, kind: InputKind, target: ResolveTarget): Option<string> {
    if kind == NoteTarget then engine.resolveNote(n, target) else engine.resolveNoteFromFocus(n, target)
  }

  ghost predicate ResolvesInput(spec: Spec, assignments: seq<Assignment>, engine: Engine, n: nat, inputId: string,
                                node: string) {
    exists kind: InputKind, target: ResolveTarget ::
      Bound(spec, assignments, inputId, kind, target) && !target.Input?
      && ResolveAssigned(engine, n, kind, target) == Some(node)
  }

  ghost predicate FocusesInput(spec: Spec, assignments: seq<Assignment>, engine: Engine, n: nat, inputId: string,
                               lens: Lens, focus: string) {
    exists target: ResolveTarget ::
      Bound(spec, assignments, inputId, FocusTarget, target) && !target.Input?
      && engine.resolveFocus(n, target, lens) == Some(focus)
  }

  ghost predicate SavesEarlier(before: seq<Report>, engine: Engine, n: nat, source: SaveSource, metadata: Metadata,
                               overwrite: bool, artifact: string)
  {
    exists earlier: StepState, saved: Saved ::
      Report(source.stepId, earlier) in before && SavedFrom(source, metadata, earlier, saved)
      && engine.saveArtifact(n, saved, overwrite) == Some(artifact)
  }

  /** `state` is what step `n` says, on what the inputs were assigned and what the
      steps before it reported. Every target put to the engine is concrete. */
  ghost predicate Means(spec: Spec, assignments: seq<Assignment>, engine: Engine, before: seq<Report>, n: nat,
                        state: StepState)
    requires n < |spec.steps|
  {
    match (spec.steps[n].payload, state)
    case (ResolveStep(target), Resolved(node)) =>
      if target.Input? then ResolvesInput(spec, assignments, engine, n, target.inputId, node)
      else engine.resolveNote(n, target) == Some(node)
    case (ExploreStep(focus, lens, limit, unique), Explored(focused, lens', limit', unique', result)) =>
      && (lens', limit', unique') == (lens, limit, unique)
      && engine.explore(n, focused, lens, limit, unique) == Some(result)
      && (match focus
          case FocusNodeKey(nodeKey) => focused == nodeKey
          case FocusInput(inputId) => FocusesInput(spec, assignments, engine, n, inputId, lens, focused)
          case ResolvedStep(stepId) => Report(stepId, Resolved(focused)) in before)
    case (CompareStep(left, right, group, limit), Compared(left', right', group', limit', comparison)) =>
      && (group', limit') == (group, limit)
      && Report(left, Resolved(left')) in before && Report(right, Resolved(right')) in before
      && engine.compare(n, left', right', limit) == Some(comparison)
    case (ArtifactRunStep(artifactId), ArtifactRan(artifact)) => engine.runArtifact(n, artifactId) == Some(artifact)
    case (ArtifactSaveStep(source, metadata, overwrite), ArtifactSaved(artifact)) =>
      SavesEarlier(before, engine, n, source, metadata, overwrite, artifact)
    case _ => false
  }

  /** The reports of the first steps of a run, each meaning what its step says. */
  ghost predicate IsRun(spec: Spec, assignments: seq<Assignment>, engine: Engine, reports: seq<Report>) {
    && |reports| <= |spec.steps|
    && (forall n :: 0 <= n < |reports| ==>
          && reports[n].stepId == spec.steps[n].stepId
          && Means(spec, assignments, engine, reports[..n], n, reports[n].state))
  }

  /** After these reports the engine refuses what the next step asks: no state
      would mean what it says. */
  ghost predicate Declined(spec: Spec, assignments: seq<Assignment>, engine: Engine, before: seq<Report>,
                           stepId: string) {
    && IsRun(spec, assignments, engine, before)
    && |before| < |spec.steps| && stepId == spec.steps[|before|].stepId
    && forall state :: !Means(spec, assignments, engine, before, |before|, state)
  }

  predicate SavedFrom(source: SaveSource, metadata: Metadata, from: StepState, saved: Saved) {
    if source.ExploreSource? then
      from.Explored? && saved == LensView(metadata, from.focus, from.lens, from.limit, from.unique)
    else
      from.Compared? && saved == Comparison(metadata, from.left, from.right, from.group, from.compareLimit)
  }

  // ---- What a run reports ----

  /** Assignment `m` gives the target of input `k`, of identifier `inputId`. */
  ghost predicate GivenTo(spec: Spec, assignments: seq<Assignment>, inputId: string, k: int, m: int) {
    && 0 <= k < |spec.inputs| && spec.inputs[k].inputId == inputId
    && 0 <= m < |assignments| && assignments[m].inputId == inputId
  }

  /** An earlier step reported this. */
  ghost predicate Reported(reports: seq<Report>, n: nat, stepId: string, state: StepState) {
    exists i :: 0 <= i < n && i < |reports| && reports[i] == Report(stepId, state)
  }

  /** A resolve step reports the note its target is, an assigned one asked for by the
      kind its input was declared with. */
  lemma ResolvesTarget(spec: Spec, assignments: seq<Assignment>, engine: Engine, reports: seq<Report>, n: nat)
    requires IsRun(spec, assignments, engine, reports) && n < |reports| && spec.steps[n].payload.ResolveStep?
    ensures reports[n].stepId == spec.steps[n].stepId && reports[n].state.Resolved?
    ensures
      var target, node := spec.steps[n].payload.target, reports[n].state.node;
      if target.Input? then
        exists k, m ::
          && GivenTo(spec, assignments, target.inputId, k, m) && !assignments[m].target.Input?
          && match spec.inputs[k].kind
             case NoteTarget => engine.resolveNote(n, assignments[m].target) == Some(node)
             case FocusTarget => engine.resolveNoteFromFocus(n, assignments[m].target) == Some(node)
      else engine.resolveNote(n, target) == Some(node)
  {
    assert Means(spec, assignments, engine, reports[..n], n, reports[n].state);
    var target, node := spec.steps[n].payload.target, reports[n].state.node;
    if target.Input? {
      var kind, given :| Bound(spec, assignments, target.inputId, kind, given) && !given.Input?
                         && ResolveAssigned(engine, n, kind, given) == Some(node);
      var k :| 0 <= k < |spec.inputs| && spec.inputs[k].inputId == target.inputId && spec.inputs[k].kind == kind;
      var m :| 0 <= m < |assignments| && assignments[m] == Assignment(target.inputId, given);
      assert GivenTo(spec, assignments, target.inputId, k, m);
    }
  }

  lemma InPrefix(reports: seq<Report>, n: nat, stepId: string, state: StepState)
    requires n <= |reports| && Report(stepId, state) in reports[..n]
    ensures Reported(reports, n, stepId, state)
  {
    var i :| 0 <= i < n && reports[..n][i] == Report(stepId, state);
    assert reports[i] == Report(stepId, state);
  }

  /** An explore step reports what the engine found from its focus: the key given, what
      the assigned focus target resolves to for the lens, or the note an earlier step
      resolved. */
  lemma ExploresFocus(spec: Spec, assignments: seq<Assignment>, engine: Engine, reports: seq<Report>, n: nat)
    requires IsRun(spec, assignments, engine, reports) && n < |reports| && spec.steps[n].payload.ExploreStep?
    ensures reports[n].stepId == spec.steps[n].stepId && reports[n].state.Explored?
    ensures
      var p, s := spec.steps[n].payload, reports[n].state;
      && s.lens == p.lens && s.limit == p.limit && s.unique == p.unique
      && engine.explore(n, s.focus, p.lens, p.limit, p.unique) == Some(s.result)
      && match p.focus
         case FocusNodeKey(nodeKey) => s.focus == nodeKey
         case FocusInput(inputId) =>
           exists k, m ::
             && GivenTo(spec, assignments, inputId, k, m) && spec.inputs[k].kind == FocusTarget
             && engine.resolveFocus(n, assignments[m].target, p.lens) == Some(s.focus)
         case ResolvedStep(stepId) => Reported(reports, n, stepId, Resolved(s.focus))
  {
    assert Means(spec, assignments, engine, reports[..n], n, reports[n].state);
    var p, s := spec.steps[n].payload, reports[n].state;
    match p.focus {
      case FocusNodeKey(_) =>
      case FocusInput(inputId) =>
        var given :| Bound(spec, assignments, inputId, FocusTarget, given) && !given.Input?
                     && engine.resolveFocus(n, given, p.lens) == Some(s.focus);
        var k :| 0 <= k < |spec.inputs| && spec.inputs[k].inputId == inputId && spec.inputs[k].kind == FocusTarget;
        var m :| 0 <= m < |assignments| && assignments[m] == Assignment(inputId, given);
        assert GivenTo(spec, assignments, inputId, k, m);
      case ResolvedStep(stepId) =>
        InPrefix(reports, n, stepId, Resolved(s.focus));
    }
  }

  /** A compare step compares the notes its two steps resolved, left and right; an
      artifact is run by its identifier; and what is saved is what the named step
      explored or compared, with the settings it did so. */
  lemma ComparesRunsAndSaves(spec: Spec, assignments: seq<Assignment>, engine: Engine, reports: seq<Report>, n: nat)
    requires IsRun(spec, assignments, engine, reports) && n < |reports|
    ensures
      var s := reports[n].state;
      match spec.steps[n].payload
      case CompareStep(left, right, group, limit) =>
        && s.Compared? && s.group == group && s.compareLimit == limit
        && Reported(reports, n, left, Resolved(s.left)) && Reported(reports, n, right, Resolved(s.right))
        && engine.compare(n, s.left, s.right, limit) == Some(s.comparison)
      case ArtifactRunStep(artifactId) => s.ArtifactRan? && engine.runArtifact(n, artifactId) == Some(s.artifact)
      case ArtifactSaveStep(ExploreSource(stepId), metadata, overwrite) =>
        && s.ArtifactSaved?
        && exists focus, lens, limit, unique, result ::
             && Reported(reports, n, stepId, Explored(focus, lens, limit, unique, result))
             && engine.saveArtifact(n, LensView(metadata, focus, lens, limit, unique), overwrite) == Some(s.artifact)
      case ArtifactSaveStep(CompareSource(stepId), metadata, overwrite) =>
        && s.ArtifactSaved?
        && exists left, right, group, limit, comparison ::
             && Reported(reports, n, stepId, Compared(left, right, group, limit, comparison))
             && engine.saveArtifact(n, Comparison(metadata, left, right, group, limit), overwrite) == Some(s.artifact)
      case _ => true
  {
    hide ResolvesInput, FocusesInput, Reported;
    assert Means(spec, assignments, engine, reports[..n], n, reports[n].state);
    var s := reports[n].state;
    match spec.steps[n].payload {
      case CompareStep(left, right, _, _) =>
        InPrefix(reports, n, left, Resolved(s.left));
        InPrefix(reports, n, right, Resolved(s.right));
      case ArtifactSaveStep(source, metadata, overwrite) =>
        var earlier, saved :| Report(source.stepId, earlier) in reports[..n]
                              && SavedFrom(source, metadata, earlier, saved)
                              && engine.saveArtifact(n, saved, overwrite) == Some(s.artifact);
        InPrefix(reports, n, source.stepId, earlier);
        if source.ExploreSource? {
          assert earlier == Explored(earlier.focus, earlier.lens, earlier.limit, earlier.unique, earlier.result);
        } else {
          assert earlier ==
                 Compared(earlier.left, earlier.right, earlier.group, earlier.compareLimit, earlier.comparison);
        }
      case _ =>
    }
  }

  // ---- The maps a run keeps ----

  function InputKinds(inputs: seq<InputSpec>): map<string, InputKind> {
    if inputs == [] then map[]
    else
      var last := inputs[|inputs| - 1];
      InputKinds(inputs[..|inputs| - 1])[last.inputId := last.kind]
  }

  function InputTargets(assignments: seq<Assignment>): map<string, ResolveTarget> {
    if assignments == [] then map[]
    else
      var last := assignments[|assignments| - 1];
      InputTargets(assignments[..|assignments| - 1])[last.inputId := last.target]
  }

  lemma {:induction false} KindsAreDeclared(inputs: seq<InputSpec>)
    requires DistinctInputs(inputs, |inputs|)
    ensures forall k :: 0 <= k < |inputs| ==>
      inputs[k].inputId in InputKinds(inputs) && InputKinds(inputs)[inputs[k].inputId] == inputs[k].kind
    ensures forall id :: id in InputKinds(inputs) ==> exists k :: 0 <= k < |inputs| && inputs[k].inputId == id
  {
    if inputs != [] {
      KindsAreDeclared(inputs[..|inputs| - 1]);
    }
  }

  lemma {:induction false} TargetsAreAssigned(assignments: seq<Assignment>)
    requires forall i, j :: 0 <= i < j < |assignments| ==> assignments[i].inputId != assignments[j].inputId
    ensures forall k :: 0 <= k < |assignments| ==>
      && assignments[k].inputId in InputTargets(assignments)
      && InputTargets(assignments)[assignments[k].inputId] == assignments[k].target
  {
    if assignments != [] {
      TargetsAreAssigned(assignments[..|assignments| - 1]);
    }
  }

  /** The maps answer for a declared input with what is bound to it, and nothing
      else is bound to it. */
  ghost predicate AnswersFor(spec: Spec, assignments: seq<Assignment>, kinds: map<string, InputKind>,
                             targets: map<string, ResolveTarget>, inputId: string)
  {
    && inputId in kinds && inputId in targets
    && Bound(spec, assignments, inputId, kinds[inputId], targets[inputId])
    && !targets[inputId].Input?
    && (forall kind, target :: Bound(spec, assignments, inputId, kind, target) ==>
      kind == kinds[inputId] && target == targets[inputId])
  }

  ghost predicate Answers(spec: Spec, assignments: seq<Assignment>, kinds: map<string, InputKind>,
                          targets: map<string, ResolveTarget>) {
    forall inputId :: Declares(spec, inputId) ==> AnswersFor(spec, assignments, kinds, targets, inputId)
  }

  /** What is bound to an input is its kind and the one target it is assigned. */
  lemma BoundIsAssigned(spec: Spec, assignments: seq<Assignment>, k: nat, m: nat, kind: InputKind,
                        target: ResolveTarget)
    requires WellScoped(spec) && FullyAssigned(spec, assignments)
    requires k < |spec.inputs| && m < |assignments| && spec.inputs[k].inputId == assignments[m].inputId
    ensures Bound(spec, assignments, spec.inputs[k].inputId, kind, target) <==>
            kind == spec.inputs[k].kind && target == assignments[m].target
  {
    hide InputFields, GoodSteps, GoodHeader, AssignmentFields, Assigns, Declares;
    if kind == spec.inputs[k].kind && target == assignments[m].target {
      assert assignments[m] == Assignment(spec.inputs[k].inputId, target);
    }
  }

  lemma MapsAnswerFor(spec: Spec, assignments: seq<Assignment>, inputId: string)
    requires WellScoped(spec) && FullyAssigned(spec, assignments) && Declares(spec, inputId)
    ensures AnswersFor(spec, assignments, InputKinds(spec.inputs), InputTargets(assignments), inputId)
  {
    hide InputFields, GoodSteps, GoodHeader, AssignmentFields, InputKinds, InputTargets, Bound;
    KindsAreDeclared(spec.inputs);
    TargetsAreAssigned(assignments);
    var k :| 0 <= k < |spec.inputs| && spec.inputs[k].inputId == inputId;
    assert Assigns(assignments, inputId);
    var m :| 0 <= m < |assignments| && assignments[m].inputId == inputId;
    assert AssignmentFields(assignments[m]);
    AssignedIsConcrete(assignments[m]);
    forall kind, target
      ensures Bound(spec, assignments, inputId, kind, target) <==>
              kind == spec.inputs[k].kind && target == assignments[m].target
    {
      BoundIsAssigned(spec, assignments, k, m, kind, target);
    }
  }

  lemma MapsAnswer(spec: Spec, assignments: seq<Assignment>)
    requires WellScoped(spec) && FullyAssigned(spec, assignments)
    ensures Answers(spec, assignments, InputKinds(spec.inputs), InputTargets(assignments))
  {
    hide WellScoped, FullyAssigned, AnswersFor, Declares;
    forall inputId | Declares(spec, inputId)
      ensures AnswersFor(spec, assignments, InputKinds(spec.inputs), InputTargets(assignments), inputId)
    {
      MapsAnswerFor(spec, assignments, inputId);
    }
  }

  lemma AssignedIsConcrete(assignment: Assignment)
    requires AssignmentFields(assignment)
    ensures !assignment.target.Input?
  {
  }

  /** The states kept by step identifier, after `n` steps. */
  ghost predicate Keeps(spec: Spec, reports: seq<Report>, states: map<string, StepState>, n: nat)
    requires n <= |spec.steps|
  {
    && |reports| == n
    && (forall i :: 0 <= i < n ==>
          && reports[i].stepId == spec.steps[i].stepId
          && reports[i].state.Kind() == spec.steps[i].payload.Kind()
          && reports[i].stepId in states && states[reports[i].stepId] == reports[i].state)
  }

  lemma EarlierIsKept(spec: Spec, reports: seq<Report>, states: map<string, StepState>, n: nat, stepId: string,
                      kind: StepKind)
    requires n <= |spec.steps| && Keeps(spec, reports, states, n)
    requires EarlierStep(spec, n, stepId, kind)
    ensures stepId in states && states[stepId].Kind() == kind
    ensures forall state :: Report(stepId, state) in reports <==> state == states[stepId]
  {
    var j :| 0 <= j < n && spec.steps[j].stepId == stepId && spec.steps[j].payload.Kind() == kind;
    assert reports[j] == Report(stepId, states[stepId]);
  }

  // ---- The run ----

  /** Resolves the target of step `n`. */
  method RunResolve(spec: Spec, ghost assignments: seq<Assignment>, engine: Engine, n: nat, target: ResolveTarget,
                    kinds: map<string, InputKind>, targets: map<string, ResolveTarget>, ghost before: seq<Report>)
    returns (r: Result<StepState, ExecError>)
    requires n < |spec.steps| && InScope(spec, n) && spec.steps[n].payload == ResolveStep(target)
    requires Answers(spec, assignments, kinds, targets)
    ensures r.Ok? ==> Means(spec, assignments, engine, before, n, r.value)
    ensures r.Err? ==> r.error == EngineFailed(spec.steps[n].stepId)
    ensures r.Err? ==> forall state :: !Means(spec, assignments, engine, before, n, state)
  {
    hide Bound;
    var stuck := Err(Stuck(spec.steps[n].stepId));
    var node: Option<string>;
    match target {
      case Input(inputId) =>
        if inputId !in targets || inputId !in kinds {
          return stuck;
        }
        node := ResolveAssigned(engine, n, kinds[inputId], targets[inputId]);
        assert forall node' :: ResolvesInput(spec, assignments, engine, n, inputId, node') <==> node == Some(node');
      case _ =>
        node := engine.resolveNote(n, target);
    }
    if node.None? {
      return Err(EngineFailed(spec.steps[n].stepId));
    }
    return Ok(Resolved(node.value));
  }

  /** Explores from the focus of step `n`. */
  method RunExplore(spec: Spec, ghost assignments: seq<Assignment>, engine: Engine, n: nat, step: Payload,
                    kinds: map<string, InputKind>, targets: map<string, ResolveTarget>,
                    states: map<string, StepState>, ghost before: seq<Report>)
    returns (r: Result<StepState, ExecError>)
    requires n < |spec.steps| && InScope(spec, n) && spec.steps[n].payload == step && step.ExploreStep?
    requires Answers(spec, assignments, kinds, targets) && Keeps(spec, before, states, n)
    ensures r.Ok? ==> Means(spec, assignments, engine, before, n, r.value)
    ensures r.Err? ==> r.error == EngineFailed(spec.steps[n].stepId)
    ensures r.Err? ==> forall state :: !Means(spec, assignments, engine, before, n, state)
  {
    hide Keeps, EarlierStep;
    var failed, stuck := Err(EngineFailed(spec.steps[n].stepId)), Err(Stuck(spec.steps[n].stepId));
    var focused: string;
    match step.focus {
      case FocusNodeKey(nodeKey) =>
        focused := nodeKey;
      case FocusInput(inputId) =>
        assert Declares(spec, inputId) && Bound(spec, assignments, inputId, FocusTarget, targets[inputId]);
        if inputId !in kinds || kinds[inputId] != FocusTarget || inputId !in targets {
          return stuck;
        }
        var focus := engine.resolveFocus(n, targets[inputId], step.lens);
        assert forall focus' :: FocusesInput(spec, assignments, engine, n, inputId, step.lens, focus') <==>
          focus == Some(focus');
        if focus.None? {
          return failed;
        }
        focused := focus.value;
      case ResolvedStep(stepId) =>
        EarlierIsKept(spec, before, states, n, stepId, Resolve);
        if stepId !in states || !states[stepId].Resolved? {
          return stuck;
        }
        focused := states[stepId].node;
    }
    var result := engine.explore(n, focused, step.lens, step.limit, step.unique);
    if result.None? {
      return failed;
    }
    return Ok(Explored(focused, step.lens, step.limit, step.unique, result.value));
  }

  /** Compares the two notes step `n` names. */
  method RunCompare(spec: Spec, ghost assignments: seq<Assignment>, engine: Engine, n: nat, step: Payload,
                    states: map<string, StepState>, ghost before: seq<Report>)
    returns (r: Result<StepState, ExecError>)
    requires n < |spec.steps| && InScope(spec, n) && spec.steps[n].payload == step && step.CompareStep?
    requires Keeps(spec, before, states, n)
    ensures r.Ok? ==> Means(spec, assignments, engine, before, n, r.value)
    ensures r.Err? ==> r.error == EngineFailed(spec.steps[n].stepId)
    ensures r.Err? ==> forall state :: !Means(spec, assignments, engine, before, n, state)
  {
    hide Keeps, EarlierStep;
    var left, right := step.left, step.right;
    var stuck := Err(Stuck(spec.steps[n].stepId));
    EarlierIsKept(spec, before, states, n, left, Resolve);
    EarlierIsKept(spec, before, states, n, right, Resolve);
    if left !in states || !states[left].Resolved? || right !in states || !states[right].Resolved? {
      return stuck;
    }
    var comparison := engine.compare(n, states[left].node, states[right].node, step.compareLimit);
    if comparison.None? {
      return Err(EngineFailed(spec.steps[n].stepId));
    }
    return Ok(Compared(states[left].node, states[right].node, step.group, step.compareLimit, comparison.value));
  }

  /** Saves what an earlier step explored or compared. */
  method RunSave(spec: Spec, ghost assignments: seq<Assignment>, engine: Engine, n: nat, step: Payload,
                 states: map<string, StepState>, ghost before: seq<Report>)
    returns (r: Result<StepState, ExecError>)
    requires n < |spec.steps| && InScope(spec, n) && spec.steps[n].payload == step && step.ArtifactSaveStep?
    requires Keeps(spec, before, states, n)
    ensures r.Ok? ==> Means(spec, assignments, engine, before, n, r.value)
    ensures r.Err? ==> r.error == EngineFailed(spec.steps[n].stepId)
    ensures r.Err? ==> forall state :: !Means(spec, assignments, engine, before, n, state)
  {
    hide Keeps, EarlierStep;
    var source, metadata := step.source, step.metadata;
    var stuck := Err(Stuck(spec.steps[n].stepId));
    EarlierIsKept(spec, before, states, n, source.stepId, if source.ExploreSource? then Explore else Compare);
    if source.stepId !in states {
      return stuck;
    }
    var earlier := states[source.stepId];
    var saved: Saved;
    if source.ExploreSource? && earlier.Explored? {
      saved := LensView(metadata, earlier.focus, earlier.lens, earlier.limit, earlier.unique);
    } else if source.CompareSource? && earlier.Compared? {
      saved := Comparison(metadata, earlier.left, earlier.right, earlier.group, earlier.compareLimit);
    } else {
      return stuck;
    }
    assert Report(source.stepId, earlier) in before && SavedFrom(source, metadata, earlier, saved);
    var artifact := engine.saveArtifact(n, saved, step.overwrite);
    if artifact.None? {
      return Err(EngineFailed(spec.steps[n].stepId));
    }
    return Ok(ArtifactSaved(artifact.value));
  }

  /** Runs step `n` on the states kept so far. */
  method RunStep(spec: Spec, ghost assignments: seq<Assignment>, engine: Engine, n: nat,
                 kinds: map<string, InputKind>, targets: map<string, ResolveTarget>,
                 states: map<string, StepState>, ghost before: seq<Report>)
    returns (r: Result<StepState, ExecError>)
    requires n < |spec.steps| && InScope(spec, n)
    requires Answers(spec, assignments, kinds, targets) && Keeps(spec, before, states, n)
    ensures r.Ok? ==> Means(spec, assignments, engine, before, n, r.value)
    ensures r.Ok? ==> r.value.Kind() == spec.steps[n].payload.Kind()
    ensures r.Err? ==> r.error == EngineFailed(spec.steps[n].stepId)
    ensures r.Err? ==> forall state :: !Means(spec, assignments, engine, before, n, state)
  {
    hide InScope, Answers, Keeps;
    var step := spec.steps[n].payload;
    match step {
      case ResolveStep(target) =>
        r := RunResolve(spec, assignments, engine, n, target, kinds, targets, before);
      case ExploreStep(_, _, _, _) =>
        r := RunExplore(spec, assignments, engine, n, step, kinds, targets, states, before);
      case CompareStep(_, _, _, _) =>
        r := RunCompare(spec, assignments, engine, n, step, states, before);
      case ArtifactRunStep(artifactId) =>
        var artifact := engine.runArtifact(n, artifactId);
        r := if artifact.None? then Err(EngineFailed(spec.steps[n].stepId)) else Ok(ArtifactRan(artifact.value));
      case ArtifactSaveStep(_, _, _) =>
        r := RunSave(spec, assignments, engine, n, step, states, before);
    }
  }

  lemma RunExtends(spec: Spec, assignments: seq<Assignment>, engine: Engine, reports: seq<Report>, report: Report)
    requires IsRun(spec, assignments, engine, reports) && |reports| < |spec.steps|
    requires report.stepId == spec.steps[|reports|].stepId
    requires Means(spec, assignments, engine, reports, |reports|, report.state)
    ensures IsRun(spec, assignments, engine, reports + [report])
  {
    hide Means;
    var longer := reports + [report];
    forall n | 0 <= n < |longer|
      ensures longer[n].stepId == spec.steps[n].stepId
      ensures Means(spec, assignments, engine, longer[..n], n, longer[n].state)
    {
      assert longer[..n] == reports[..n];
      assert n == |reports| ==> reports[..n] == reports;
    }
  }

  /** A run answers one report for each step, each meaning what its step says, or
      an error that is the specification's, the assignments' or the engine's: the
      engine's only where no state would mean what the step says. No specification
      and no assignments make it meet a reference that does not resolve: the checks
      it starts with leave those branches dead. */
  method Execute(spec: Spec, assignments: seq<Assignment>, engine: Engine) returns (r: Result<seq<Report>, ExecError>)
    ensures !(r.Err? && r.error.Stuck?)
    ensures (r.Err? && r.error.BadSpec?) <==> !WellScoped(spec)
    ensures (r.Err? && r.error.BadAssignments?) <==> WellScoped(spec) && !FullyAssigned(spec, assignments)
    ensures r.Err? && r.error.BadSpec? ==> Blames(spec, r.error.specError)
    ensures r.Err? && r.error.BadAssignments? ==> BlamesAssignment(spec, assignments, r.error.assignmentError)
    ensures r.Err? && r.error.EngineFailed? ==> exists before ::
      Declined(spec, assignments, engine, before, r.error.stepId)
    ensures r.Ok? ==> |r.value| == |spec.steps| && IsRun(spec, assignments, engine, r.value)
  {
    hide Means, StepFields, InScope, Answers, FullyAssigned, GoodInputs, IsRun, Blames, BlamesAssignment;
    var specError := ValidationError(spec);
    if specError.Some? {
      return Err(BadSpec(specError.value));
    }
    var assignmentError := InputAssignmentsError(spec, assignments);
    if assignmentError.Some? {
      return Err(BadAssignments(assignmentError.value));
    }
    var kinds, targets := InputKinds(spec.inputs), InputTargets(assignments);
    MapsAnswer(spec, assignments);
    var states: map<string, StepState> := map[];
    var reports: seq<Report> := [];
    assert IsRun(spec, assignments, engine, reports) by { EmptyRun(spec, assignments, engine); }
    for n := 0 to |spec.steps|
      invariant Keeps(spec, reports, states, n)
      invariant IsRun(spec, assignments, engine, reports)
    {
      var state := RunStep(spec, assignments, engine, n, kinds, targets, states, reports);
      if state.Err? {
        assert Declined(spec, assignments, engine, reports, spec.steps[n].stepId);
        return Err(state.error);
      }
      var report := Report(spec.steps[n].stepId, state.value);
      RunExtends(spec, assignments, engine, reports, report);
      reports := reports + [report];
      states := states[report.stepId := report.state];
    }
    r := Ok(reports);
  }

  /** The engine refused some query of step `n`. */
  ghost predicate RefusedQuery(engine: Engine, n: nat, payload: Payload) {
    match payload
    case ResolveStep(target) =>
      if target.Input? then
        exists given: ResolveTarget :: engine.resolveNote(n, given).None? || engine.resolveNoteFromFocus(n, given).None?
      else engine.resolveNote(n, target).None?
    case ExploreStep(focus, lens, limit, unique) =>
      || (focus.FocusInput? && exists given: ResolveTarget :: engine.resolveFocus(n, given, lens).None?)
      || (exists focused: string :: engine.explore(n, focused, lens, limit, unique).None?)
    case CompareStep(_, _, _, limit) =>
      exists left: string, right: string :: engine.compare(n, left, right, limit).None?
    case ArtifactRunStep(artifactId) => engine.runArtifact(n, artifactId).None?
    case ArtifactSaveStep(_, _, overwrite) => exists saved: Saved :: engine.saveArtifact(n, saved, overwrite).None?
  }

  lemma EarlierReport(spec: Spec, assignments: seq<Assignment>, engine: Engine, before: seq<Report>, stepId: string,
                      kind: StepKind)
    returns (state: StepState)
    requires IsRun(spec, assignments, engine, before) && EarlierStep(spec, |before|, stepId, kind)
    ensures Report(stepId, state) in before && state.Kind() == kind
  {
    var j :| 0 <= j < |before| && spec.steps[j].stepId == stepId && spec.steps[j].payload.Kind() == kind;
    state := before[j].state;
    assert Means(spec, assignments, engine, before[..j], j, state);
    hide ResolvesInput, FocusesInput, SavesEarlier;
    assert before[j] == Report(stepId, state);
  }

  lemma AssignedInput(spec: Spec, assignments: seq<Assignment>, inputId: string, kind: InputKind)
    returns (given: ResolveTarget)
    requires WellScoped(spec) && FullyAssigned(spec, assignments) && DeclaresKind(spec, inputId, kind)
    ensures Bound(spec, assignments, inputId, kind, given) && !given.Input?
  {
    hide InputFields, GoodSteps, GoodHeader, TargetFields, IsIdentifier;
    assert Assigns(assignments, inputId);
    var m :| 0 <= m < |assignments| && assignments[m].inputId == inputId;
    given := assignments[m].target;
    assert AssignmentFields(assignments[m]) && assignments[m] == Assignment(inputId, given);
  }

  lemma SomeResolve(spec: Spec, assignments: seq<Assignment>, engine: Engine, before: seq<Report>,
                    target: ResolveTarget)
    requires WellScoped(spec) && FullyAssigned(spec, assignments)
    requires |before| < |spec.steps| && spec.steps[|before|].payload == ResolveStep(target) && InScope(spec, |before|)
    ensures
      || RefusedQuery(engine, |before|, ResolveStep(target))
      || exists state :: Means(spec, assignments, engine, before, |before|, state)
  {
    hide WellScoped, FullyAssigned;
    var n := |before|;
    var node := engine.resolveNote(n, target);
    if target.Input? {
      var k :| 0 <= k < |spec.inputs| && spec.inputs[k].inputId == target.inputId;
      var given := AssignedInput(spec, assignments, target.inputId, spec.inputs[k].kind);
      node := ResolveAssigned(engine, n, spec.inputs[k].kind, given);
    }
    if node.Some? {
      assert Means(spec, assignments, engine, before, n, Resolved(node.value));
    }
  }

  lemma SomeExplore(spec: Spec, assignments: seq<Assignment>, engine: Engine, before: seq<Report>, p: Payload)
    requires WellScoped(spec) && FullyAssigned(spec, assignments) && IsRun(spec, assignments, engine, before)
    requires |before| < |spec.steps| && spec.steps[|before|].payload == p && p.ExploreStep? && InScope(spec, |before|)
    ensures
      || RefusedQuery(engine, |before|, p)
      || exists state :: Means(spec, assignments, engine, before, |before|, state)
  {
    hide WellScoped, FullyAssigned, IsRun;
    var n := |before|;
    var focused: string;
    match p.focus {
      case FocusNodeKey(nodeKey) =>
        focused := nodeKey;
      case FocusInput(inputId) =>
        var given := AssignedInput(spec, assignments, inputId, FocusTarget);
        var focus := engine.resolveFocus(n, given, p.lens);
        if focus.None? {
          return;
        }
        focused := focus.value;
      case ResolvedStep(stepId) =>
        var e := EarlierReport(spec, assignments, engine, before, stepId, Resolve);
        assert e == Resolved(e.node);
        focused := e.node;
    }
    var result := engine.explore(n, focused, p.lens, p.limit, p.unique);
    if result.Some? {
      assert Means(spec, assignments, engine, before, n, Explored(focused, p.lens, p.limit, p.unique, result.value));
    }
  }

  lemma SomeCompare(spec: Spec, assignments: seq<Assignment>, engine: Engine, before: seq<Report>, p: Payload)
    requires IsRun(spec, assignments, engine, before)
    requires |before| < |spec.steps| && spec.steps[|before|].payload == p && p.CompareStep? && InScope(spec, |before|)
    ensures
      || RefusedQuery(engine, |before|, p)
      || exists state :: Means(spec, assignments, engine, before, |before|, state)
  {
    hide IsRun, EarlierStep;
    var l := EarlierReport(spec, assignments, engine, before, p.left, Resolve);
    var r := EarlierReport(spec, assignments, engine, before, p.right, Resolve);
    assert l == Resolved(l.node) && r == Resolved(r.node);
    var comparison := engine.compare(|before|, l.node, r.node, p.compareLimit);
    if comparison.Some? {
      var state := Compared(l.node, r.node, p.group, p.compareLimit, comparison.value);
      assert Means(spec, assignments, engine, before, |before|, state);
    }
  }

  lemma SomeArtifact(spec: Spec, assignments: seq<Assignment>, engine: Engine, before: seq<Report>, artifactId: string)
    requires |before| < |spec.steps| && spec.steps[|before|].payload == ArtifactRunStep(artifactId)
    ensures
      || RefusedQuery(engine, |before|, ArtifactRunStep(artifactId))
      || exists state :: Means(spec, assignments, engine, before, |before|, state)
  {
    var artifact := engine.runArtifact(|before|, artifactId);
    if artifact.Some? {
      assert Means(spec, assignments, engine, before, |before|, ArtifactRan(artifact.value));
    }
  }

  lemma SomeSave(spec: Spec, assignments: seq<Assignment>, engine: Engine, before: seq<Report>, p: Payload)
    requires IsRun(spec, assignments, engine, before)
    requires |before| < |spec.steps| && spec.steps[|before|].payload == p && p.ArtifactSaveStep?
    requires InScope(spec, |before|)
    ensures
      || RefusedQuery(engine, |before|, p)
      || exists state :: Means(spec, assignments, engine, before, |before|, state)
  {
    hide IsRun, EarlierStep;
    var kind := if p.source.ExploreSource? then Explore else Compare;
    var e := EarlierReport(spec, assignments, engine, before, p.source.stepId, kind);
    var saved := if p.source.ExploreSource? then LensView(p.metadata, e.focus, e.lens, e.limit, e.unique)
                 else Comparison(p.metadata, e.left, e.right, e.group, e.compareLimit);
    var artifact := engine.saveArtifact(|before|, saved, p.overwrite);
    if artifact.Some? {
      assert SavedFrom(p.source, p.metadata, e, saved);
      assert Means(spec, assignments, engine, before, |before|, ArtifactSaved(artifact.value));
    }
  }

  /** A run of a specification and assignments that pass stops at a step only where the
      engine refused what that step asked. */
  lemma StopsOnlyWhereRefused(spec: Spec, assignments: seq<Assignment>, engine: Engine, before: seq<Report>,
                              stepId: string)
    requires WellScoped(spec) && FullyAssigned(spec, assignments)
    requires Declined(spec, assignments, engine, before, stepId)
    ensures RefusedQuery(engine, |before|, spec.steps[|before|].payload)
  {
    var n := |before|;
    var payload := spec.steps[n].payload;
    assert InScope(spec, n);
    hide WellScoped, FullyAssigned, IsRun, Means, InScope;
    match payload {
      case ResolveStep(target) => SomeResolve(spec, assignments, engine, before, target);
      case ExploreStep(_, _, _, _) => SomeExplore(spec, assignments, engine, before, payload);
      case CompareStep(_, _, _, _) => SomeCompare(spec, assignments, engine, before, payload);
      case ArtifactRunStep(artifactId) => SomeArtifact(spec, assignments, engine, before, artifactId);
      case ArtifactSaveStep(_, _, _) => SomeSave(spec, assignments, engine, before, payload);
    }
  }

  lemma EmptyRun(spec: Spec, assignments: seq<Assignment>, engine: Engine)
    ensures IsRun(spec, assignments, engine, [])
  {
  }

  lemma ReportIsUnique(spec: Spec, assignments: seq<Assignment>, engine: Engine, before: seq<Report>, stepId: string,
                       s: StepState, t: StepState)
    requires GoodSteps(spec, |spec.steps|) && IsRun(spec, assignments, engine, before)
    requires Report(stepId, s) in before && Report(stepId, t) in before
    ensures s == t
  {
    hide Means, InScope, StepFields;
    var i :| 0 <= i < |before| && before[i] == Report(stepId, s);
    var j :| 0 <= j < |before| && before[j] == Report(stepId, t);
    assert spec.steps[i].stepId == spec.steps[j].stepId;
  }

  lemma BoundOnce(spec: Spec, assignments: seq<Assignment>, inputId: string)
    requires WellScoped(spec) && FullyAssigned(spec, assignments)
    ensures forall k, t, k', t' ::
      Bound(spec, assignments, inputId, k, t) && Bound(spec, assignments, inputId, k', t') ==> k == k' && t == t'
  {
    hide GoodInputs, GoodSteps, FullyAssigned, InputKinds, InputTargets;
    MapsAnswer(spec, assignments);
    if k, t :| Bound(spec, assignments, inputId, k, t) {
      assert Declares(spec, inputId);
      assert AnswersFor(spec, assignments, InputKinds(spec.inputs), InputTargets(assignments), inputId);
    }
  }

  lemma MeaningIsUnique(spec: Spec, assignments: seq<Assignment>, engine: Engine, before: seq<Report>, n: nat,
                        s: StepState, t: StepState)
    requires WellScoped(spec) && FullyAssigned(spec, assignments) && IsRun(spec, assignments, engine, before)
    requires n < |spec.steps|
    requires Means(spec, assignments, engine, before, n, s) && Means(spec, assignments, engine, before, n, t)
    ensures s == t
  {
    hide GoodInputs, GoodSteps, IsRun, FullyAssigned, Bound;
    match spec.steps[n].payload
    case ResolveStep(target) =>
      if target.Input? {
        BoundOnce(spec, assignments, target.inputId);
      }
    case ExploreStep(focus, _, _, _) =>
      if focus.FocusInput? {
        BoundOnce(spec, assignments, focus.inputId);
      }
      if focus.ResolvedStep? {
        ReportIsUnique(spec, assignments, engine, before, focus.stepId, Resolved(s.focus), Resolved(t.focus));
      }
    case CompareStep(left, right, _, _) =>
      ReportIsUnique(spec, assignments, engine, before, left, Resolved(s.left), Resolved(t.left));
      ReportIsUnique(spec, assignments, engine, before, right, Resolved(s.right), Resolved(t.right));
    case ArtifactRunStep(_) =>
    case ArtifactSaveStep(source, metadata, overwrite) =>
      var earlier, saved :| Report(source.stepId, earlier) in before && SavedFrom(source, metadata, earlier, saved)
                            && engine.saveArtifact(n, saved, overwrite) == Some(s.artifact);
      var earlier', saved' :| Report(source.stepId, earlier') in before && SavedFrom(source, metadata, earlier', saved')
                              && engine.saveArtifact(n, saved', overwrite) == Some(t.artifact);
      ReportIsUnique(spec, assignments, engine, before, source.stepId, earlier, earlier');
  }

  /** What a specification means is unambiguous: for a given engine, two runs of
      the same number of steps report the same things. */
  lemma {:induction false} OneRun(spec: Spec, assignments: seq<Assignment>, engine: Engine, a: seq<Report>,
                                  b: seq<Report>)
    requires WellScoped(spec) && FullyAssigned(spec, assignments)
    requires IsRun(spec, assignments, engine, a) && IsRun(spec, assignments, engine, b) && |a| == |b|
    ensures a == b
    decreases |a|
  {
    hide Means, WellScoped, FullyAssigned;
    if a != [] {
      var n := |a| - 1;
      forall k | 0 <= k < n ensures a[..n][..k] == a[..k] && b[..n][..k] == b[..k] {
      }
      OneRun(spec, assignments, engine, a[..n], b[..n]);
      MeaningIsUnique(spec, assignments, engine, a[..n], n, a[n].state, b[n].state);
      assert a == a[..n] + [a[n]] && b == b[..n] + [b[n]];
    }
  }
}
