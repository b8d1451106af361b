/** The workflows that ship with the engine (workflow.rs), and that they pass the
    checks every other workflow passes. */
module BuiltInWorkflows {
  import opened Basics
  import opened Text
  import opened Workflow
  import opened PackManifest

  /** A summary, its first and last word apart: they decide that it is not blank. */
  function Summary(first: string, rest: string, last: string): string {
    first + rest + last
  }

  function Resolving(stepId: string, inputId: string): Step {
    Step(stepId, ResolveStep(Input(inputId)))
  }

  function ExploringStep(stepId: string, lens: Lens, limit: nat): Step {
    Step(stepId, ExploreStep(ResolvedStep("resolve-focus"), lens, limit, false))
  }

  function ExploringInput(stepId: string, lens: Lens, limit: nat): Step {
    Step(stepId, ExploreStep(FocusInput("focus"), lens, limit, false))
  }

  function FocusSpec(title: string, summary: string): InputSpec {
    InputSpec("focus", title, Some(summary), FocusTarget)
  }

  const CONTEXT_SWEEP := Spec(
    Metadata("workflow/builtin/context-sweep", "Context Sweep",
             Some(Summary("Resolve", " a focus note and gather structural, reference, and dormant", " context."))),
    SUPPORTED_VERSION,
    [FocusSpec("Focus target", Summary("Note", " or anchor target to", " inspect"))],
    [Resolving("resolve-focus", "focus"), ExploringStep("explore-structure", Structure, 25),
     ExploringInput("explore-refs", Refs, 25), ExploringStep("explore-dormant", Dormant, 25)])

  const UNRESOLVED_SWEEP := Spec(
    Metadata("workflow/builtin/unresolved-sweep", "Unresolved Sweep",
             Some(Summary("Resolve", " a focus note and sweep unresolved, task, and time context around", " it."))),
    SUPPORTED_VERSION,
    [FocusSpec("Focus target", Summary("Note", " or anchor target to audit for unresolved", " pressure"))],
    [Resolving("resolve-focus", "focus"), ExploringStep("explore-unresolved", Unresolved, 25),
     ExploringInput("explore-tasks", Tasks, 25), ExploringInput("explore-time", Time, 25)])

  const PERIODIC_SUMMARY :=
    " a recurring review around a focus target across unresolved work, planning, references, and dormant"

  const PERIODIC_REVIEW := Spec(
    Metadata("workflow/builtin/periodic-review", "Periodic Review",
             Some(Summary("Run", PERIODIC_SUMMARY, " context."))),
    SUPPORTED_VERSION,
    [FocusSpec("Review focus", Summary("Note", " or anchor target anchoring the recurring", " review"))],
    [Resolving("resolve-focus", "focus"), ExploringStep("review-unresolved", Unresolved, 50),
     ExploringInput("review-time", Time, 50), ExploringInput("review-tasks", Tasks, 50),
     ExploringInput("review-refs", Refs, 50), ExploringStep("review-dormant", Dormant, 50)])

  const WEAK_INTEGRATION := Spec(
    Metadata("workflow/builtin/weak-integration-review", "Weak Integration Review",
             Some(Summary("Review", " weakly integrated, dormant, and bridgeable material around a focus", " note."))),
    SUPPORTED_VERSION,
    [FocusSpec("Integration focus",
               Summary("Note", " or anchor target whose surrounding integration should be", " reviewed"))],
    [Resolving("resolve-focus", "focus"), ExploringStep("review-weak-integration", Unresolved, 50),
     ExploringStep("review-dormant", Dormant, 50), ExploringStep("review-bridges", Bridges, 50)])

  const COMPARISON_TENSION := Spec(
    Metadata("workflow/builtin/comparison-tension-review", "Comparison Tension Review",
             Some(Summary("Resolve", " two notes and review both tension and overlap", " together."))),
    SUPPORTED_VERSION,
    [InputSpec("left", "Left note", Some("First exact note target"), NoteTarget),
     InputSpec("right", "Right note", Some("Second exact note target"), NoteTarget)],
    [Resolving("resolve-left", "left"), Resolving("resolve-right", "right"),
     Step("compare-tension", CompareStep("resolve-left", "resolve-right", "tension", 25)),
     Step("compare-overlap", CompareStep("resolve-left", "resolve-right", "overlap", 25))])

  const SHIPPED := BuiltIns(
    [CONTEXT_SWEEP, UNRESOLVED_SWEEP, PERIODIC_REVIEW, WEAK_INTEGRATION, COMPARISON_TENSION],
    ["routine/builtin/context-sweep-review", "routine/builtin/duplicate-title-review"])

  lemma PlainIsIdentifier(s: string)
    requires Plain(s)
    ensures IsIdentifier(s) && HasText(s)
  {
    TrimKeeps(s);
  }

  lemma PlainMetadata(m: Metadata)
    requires Plain(m.id) && Plain(m.title) && m.summary.Some? && Plain(m.summary.value)
    ensures HasMetadata(m)
  {
    hide Plain, IsIdentifier, HasText;
    PlainIsIdentifier(m.id);
    PlainIsIdentifier(m.title);
    PlainIsIdentifier(m.summary.value);
  }

  lemma PlainInput(input: InputSpec)
    requires Plain(input.inputId) && Plain(input.title) && input.summary.Some? && Plain(input.summary.value)
    ensures InputFields(input)
  {
    hide Plain, IsIdentifier, HasText;
    PlainIsIdentifier(input.inputId);
    PlainIsIdentifier(input.title);
    PlainIsIdentifier(input.summary.value);
  }

  /** A sweep resolves its one focus input first, and explores from it. */
  ghost predicate IsSweep(spec: Spec) {
    && spec.version == SUPPORTED_VERSION
    && |spec.inputs| == 1 && spec.inputs[0].inputId == "focus" && spec.inputs[0].kind == FocusTarget
    && |spec.steps| > 0 && spec.steps[0] == Resolving("resolve-focus", "focus")
    && (forall i :: 0 < i < |spec.steps| ==> SweepStep(spec.steps[i]))
    && DistinctSteps(spec.steps)
  }

  ghost predicate DistinctSteps(steps: seq<Step>) {
    forall i, j :: 0 <= i < j < |steps| ==> steps[i].stepId != steps[j].stepId
  }

  predicate SweepStep(step: Step) {
    && Plain(step.stepId) && step.payload.ExploreStep? && !step.payload.unique
    && (step.payload.focus == FocusInput("focus") || step.payload.focus == ResolvedStep("resolve-focus"))
  }

  predicate PlainSpec(spec: Spec) {
    && Plain(spec.metadata.id) && Plain(spec.metadata.title)
    && spec.metadata.summary.Some? && Plain(spec.metadata.summary.value)
    && (forall i :: 0 <= i < |spec.inputs| ==> PlainSpecInput(spec.inputs[i]))
  }

  predicate PlainSpecInput(input: InputSpec) {
    Plain(input.inputId) && Plain(input.title) && input.summary.Some? && Plain(input.summary.value)
  }

  lemma SweepsAreWellScoped(spec: Spec)
    requires IsSweep(spec) && PlainSpec(spec)
    ensures WellScoped(spec)
  {
    hide IsIdentifier, HasText, HasMetadata, InputFields;
    assert Plain("focus") && Plain("resolve-focus");
    PlainIsIdentifier("focus");
    PlainIsIdentifier("resolve-focus");
    PlainMetadata(spec.metadata);
    assert PlainSpecInput(spec.inputs[0]);
    PlainInput(spec.inputs[0]);
    assert Declares(spec, "focus") && DeclaresKind(spec, "focus", FocusTarget);
    forall i | 0 <= i < |spec.steps| ensures StepFields(spec.steps[i]) && InScope(spec, i) {
      if i > 0 {
        assert SweepStep(spec.steps[i]);
        PlainIsIdentifier(spec.steps[i].stepId);
        assert EarlierStep(spec, i, "resolve-focus", Resolve) by {
          assert spec.steps[0].stepId == "resolve-focus";
        }
      }
    }
  }

  // ---- The sweeps ----

  lemma ContextSweeps()
    ensures IsSweep(CONTEXT_SWEEP)
  {
  }

  lemma ContextIsPlain()
    ensures PlainSpec(CONTEXT_SWEEP)
  {
  }

  lemma UnresolvedSweeps()
    ensures IsSweep(UNRESOLVED_SWEEP)
  {
  }

  lemma UnresolvedIsPlain()
    ensures PlainSpec(UNRESOLVED_SWEEP)
  {
  }

  lemma PeriodicSweeps()
    ensures IsSweep(PERIODIC_REVIEW)
  {
  }

  lemma PeriodicIsPlain()
    ensures PlainSpec(PERIODIC_REVIEW)
  {
  }

  lemma WeakSweeps()
    ensures IsSweep(WEAK_INTEGRATION)
  {
  }

  lemma WeakIsPlain()
    ensures PlainSpec(WEAK_INTEGRATION)
  {
  }

  // ---- The comparison ----

  lemma PlainNotes()
    ensures Plain("left") && Plain("Left note") && Plain("First exact note target")
    ensures Plain("right") && Plain("Right note") && Plain("Second exact note target")
  {
  }

  /** A comparison resolves its two notes first, and compares them after. */
  ghost predicate IsComparison(spec: Spec) {
    && spec.version == SUPPORTED_VERSION
    && |spec.inputs| == 2 && spec.inputs[0].inputId == "left" && spec.inputs[1].inputId == "right"
    && |spec.steps| >= 2
    && spec.steps[0] == Resolving("resolve-left", "left") && spec.steps[1] == Resolving("resolve-right", "right")
    && (forall i :: 2 <= i < |spec.steps| ==> ComparingStep(spec.steps[i]))
    && DistinctSteps(spec.steps)
  }

  predicate ComparingStep(step: Step) {
    && Plain(step.stepId) && step.payload.CompareStep?
    && step.payload.left == "resolve-left" && step.payload.right == "resolve-right"
  }

  lemma PlainNotesResolve()
    ensures Plain("resolve-left") && Plain("resolve-right")
    ensures "left" != "right" && "resolve-left" != "resolve-right"
  {
    assert |"left"| != |"right"| && |"resolve-left"| != |"resolve-right"|;
  }

  lemma ComparisonsAreWellScoped(spec: Spec)
    requires IsComparison(spec) && PlainSpec(spec)
    ensures WellScoped(spec)
  {
    hide IsIdentifier, HasText, HasMetadata, InputFields, Plain;
    PlainMetadata(spec.metadata);
    assert PlainSpecInput(spec.inputs[0]) && PlainSpecInput(spec.inputs[1]);
    PlainInput(spec.inputs[0]);
    PlainInput(spec.inputs[1]);
    PlainNotes();
    PlainNotesResolve();
    PlainIsIdentifier("left");
    PlainIsIdentifier("right");
    PlainIsIdentifier("resolve-left");
    PlainIsIdentifier("resolve-right");
    assert Declares(spec, "left") && Declares(spec, "right");
    forall i | 0 <= i < |spec.steps| ensures StepFields(spec.steps[i]) && InScope(spec, i) {
      if i >= 2 {
        assert ComparingStep(spec.steps[i]);
        PlainIsIdentifier(spec.steps[i].stepId);
        ResolvedEarlier(spec, i);
      }
    }
  }

  lemma ResolvedEarlier(spec: Spec, i: nat)
    requires 2 <= i <= |spec.steps|
    requires spec.steps[0] == Resolving("resolve-left", "left") && spec.steps[1] == Resolving("resolve-right", "right")
    ensures EarlierStep(spec, i, "resolve-left", Resolve) && EarlierStep(spec, i, "resolve-right", Resolve)
  {
    assert spec.steps[0].stepId == "resolve-left" && spec.steps[1].stepId == "resolve-right";
  }

  lemma ComparisonCompares()
    ensures IsComparison(COMPARISON_TENSION)
  {
  }

  lemma ComparisonMetadataIsPlain()
    ensures Plain(COMPARISON_TENSION.metadata.id) && Plain(COMPARISON_TENSION.metadata.title)
    ensures COMPARISON_TENSION.metadata.summary.Some? && Plain(COMPARISON_TENSION.metadata.summary.value)
  {
  }

  lemma ComparisonIsPlain()
    ensures PlainSpec(COMPARISON_TENSION)
  {
    ComparisonMetadataIsPlain();
    PlainNotes();
    hide Plain;
    assert PlainSpecInput(COMPARISON_TENSION.inputs[0]) && PlainSpecInput(COMPARISON_TENSION.inputs[1]);
  }

  lemma SweepsShipped()
    ensures WellScoped(CONTEXT_SWEEP) && WellScoped(UNRESOLVED_SWEEP)
    ensures WellScoped(PERIODIC_REVIEW) && WellScoped(WEAK_INTEGRATION)
  {
    hide WellScoped, IsSweep, PlainSpec;
    ContextSweeps();
    ContextIsPlain();
    SweepsAreWellScoped(CONTEXT_SWEEP);
    UnresolvedSweeps();
    UnresolvedIsPlain();
    SweepsAreWellScoped(UNRESOLVED_SWEEP);
    PeriodicSweeps();
    PeriodicIsPlain();
    SweepsAreWellScoped(PERIODIC_REVIEW);
    WeakSweeps();
    WeakIsPlain();
    SweepsAreWellScoped(WEAK_INTEGRATION);
  }

  lemma ShippedIdsDiffer()
    ensures
      && |CONTEXT_SWEEP.metadata.id| == 30 && |UNRESOLVED_SWEEP.metadata.id| == 33
      && |PERIODIC_REVIEW.metadata.id| == 32
      && |WEAK_INTEGRATION.metadata.id| == 40 && |COMPARISON_TENSION.metadata.id| == 42
  {
  }

  /** What ships passes the checks, under distinct identifiers. */
  lemma ShippedIsSound()
    ensures SHIPPED.Sound()
  {
    hide WellScoped, IsComparison, PlainSpec;
    SweepsShipped();
    ComparisonCompares();
    ComparisonIsPlain();
    ComparisonsAreWellScoped(COMPARISON_TENSION);
    ShippedIdsDiffer();
    hide CONTEXT_SWEEP, UNRESOLVED_SWEEP, PERIODIC_REVIEW, WEAK_INTEGRATION, COMPARISON_TENSION;
  }
}
