/** The difference between two review runs, as review.rs computes it. */
module ReviewDiff {
  import opened Basics
  import opened Text
  import opened ReviewRuns
  import Workflow

  datatype Counts = Counts(open: nat, reviewed: nat, dismissed: nat, accepted: nat)
  datatype RunKind = OfAudit | OfWorkflow
  datatype Summary = Summary(metadata: Workflow.Metadata, kind: RunKind, findingCount: nat, statusCounts: Counts)
  datatype Pair = Pair(findingId: string, base: Finding, target: Finding)
  datatype StatusDiff = StatusDiff(findingId: string, fromStatus: Status, toStatus: Status, base: Finding,
                                   target: Finding)
  datatype Diff = Diff(baseReview: Summary, targetReview: Summary, added: seq<Finding>, removed: seq<Finding>,
                       unaltered: seq<Pair>, contentChanged: seq<Pair>, statusChanged: seq<StatusDiff>)

  datatype DiffError = BaseInvalid(error: RunError) | TargetInvalid(error: RunError) | Incompatible

  // ---- Counting statuses ----

  function Count(findings: seq<Finding>, status: Status): nat {
    if findings == [] then 0
    else Count(findings[..|findings| - 1], status) + if findings[|findings| - 1].status == status then 1 else 0
  }

  function CountsOf(findings: seq<Finding>): Counts {
    Counts(Count(findings, Open), Count(findings, Reviewed), Count(findings, Dismissed), Count(findings, Accepted))
  }

  method FromFindings(findings: seq<Finding>) returns (counts: Counts)
    ensures counts == CountsOf(findings)
    ensures counts.open + counts.reviewed + counts.dismissed + counts.accepted == |findings|
    ensures counts.open == Count(findings, Open) && counts.reviewed == Count(findings, Reviewed)
    ensures counts.dismissed == Count(findings, Dismissed) && counts.accepted == Count(findings, Accepted)
  {
    counts := Counts(0, 0, 0, 0);
    for n := 0 to |findings|
      invariant counts == CountsOf(findings[..n])
      invariant counts.open + counts.reviewed + counts.dismissed + counts.accepted == n
    {
      assert findings[..n + 1][..n] == findings[..n];
      match findings[n].status {
        case Open => counts := counts.(open := counts.open + 1);
        case Reviewed => counts := counts.(reviewed := counts.reviewed + 1);
        case Dismissed => counts := counts.(dismissed := counts.dismissed + 1);
        case Accepted => counts := counts.(accepted := counts.accepted + 1);
      }
    }
    assert findings[..|findings|] == findings;
  }

  /** Where the findings of a status are. */
  ghost function Places(findings: seq<Finding>, status: Status): set<int> {
    set i | 0 <= i < |findings| && findings[i].status == status
  }

  lemma PlacesStep(findings: seq<Finding>, status: Status)
    requires findings != []
    ensures
      var n := |findings| - 1;
      var front := Places(findings[..n], status);
      && n !in front
      && Places(findings, status) == if findings[n].status == status then front + {n} else front
  {
  }

  /** A count is how many findings have that status. */
  lemma {:induction false} CountIsHowMany(findings: seq<Finding>, status: Status)
    ensures Count(findings, status) == |Places(findings, status)|
  {
    hide Places;
    if findings == [] {
      NoPlaces(status);
    } else {
      PlacesStep(findings, status);
      CountIsHowMany(findings[..|findings| - 1], status);
    }
  }

  lemma NoPlaces(status: Status)
    ensures Places([], status) == {}
  {
  }

  // ---- Findings by identifier, in order ----

  ghost predicate Ascending(ids: seq<string>) {
    forall i, j :: 0 <= i < j < |ids| ==> TextLt(ids[i], ids[j])
  }

  function Ids(findings: seq<Finding>): (ids: seq<string>)
    ensures |ids| == |findings| && forall k :: 0 <= k < |ids| ==> ids[k] == findings[k].id
  {
    seq(|findings|, k requires 0 <= k < |findings| => findings[k].id)
  }

  function PairIds(pairs: seq<Pair>): (ids: seq<string>)
    ensures |ids| == |pairs| && forall k :: 0 <= k < |ids| ==> ids[k] == pairs[k].findingId
  {
    seq(|pairs|, k requires 0 <= k < |pairs| => pairs[k].findingId)
  }

  /** The findings of a run by identifier. */
  function ById(findings: seq<Finding>): (m: map<string, Finding>)
    requires DistinctIds(findings)
    ensures forall id :: id in m <==> exists k :: 0 <= k < |findings| && findings[k].id == id
    ensures forall k :: 0 <= k < |findings| ==> findings[k].id in m && m[findings[k].id] == findings[k]
  {
    map k | 0 <= k < |findings| :: findings[k].id := findings[k]
  }

  /** The findings in the order of their identifiers, as an ordered map keeps them. */
  method InOrder(findings: seq<Finding>) returns (order: seq<Finding>)
    requires DistinctIds(findings)
    ensures Ascending(Ids(order))
    ensures forall f :: f in order <==> f in findings
  {
    order := [];
    for n := 0 to |findings|
      invariant Ascending(Ids(order))
      invariant forall f :: f in order <==> f in findings[..n]
    {
      var at := 0;
      while at < |order| && TextLt(order[at].id, findings[n].id)
        invariant 0 <= at <= |order|
        invariant forall k :: 0 <= k < at ==> TextLt(order[k].id, findings[n].id)
      {
        at := at + 1;
      }
      forall k | 0 <= k < |order| ensures order[k].id != findings[n].id {
        assert order[k] in findings[..n];
      }
      InsertedIsAscending(order, at, findings[n]);
      assert findings[..n + 1] == findings[..n] + [findings[n]];
      InsertedMembers(order, at, findings[n]);
      order := order[..at] + [findings[n]] + order[at..];
    }
    assert findings[..|findings|] == findings;
  }

  lemma InsertedMembers(order: seq<Finding>, at: nat, finding: Finding)
    requires at <= |order|
    ensures forall f :: f in order[..at] + [finding] + order[at..] <==> f in order || f == finding
  {
    assert order == order[..at] + order[at..];
  }

  lemma InsertedIsAscending(order: seq<Finding>, at: nat, finding: Finding)
    requires Ascending(Ids(order)) && at <= |order| && finding.id !in Ids(order)
    requires forall k :: 0 <= k < at ==> TextLt(order[k].id, finding.id)
    requires at < |order| ==> !TextLt(order[at].id, finding.id)
    ensures Ascending(Ids(order[..at] + [finding] + order[at..]))
  {
    hide TextLe;
    var ids, longer := Ids(order), Ids(order[..at] + [finding] + order[at..]);
    if at < |order| {
      TextLeTotal(finding.id, ids[at]);
    }
    forall k | at <= k < |ids| ensures TextLt(finding.id, ids[k]) {
      if at < k {
        TextLtTransitive(finding.id, ids[at], ids[k]);
      }
    }
    forall i, j | 0 <= i < j < |longer| ensures TextLt(longer[i], longer[j]) {
      assert longer[i] == if i < at then ids[i] else if i == at then finding.id else ids[i - 1];
      assert longer[j] == if j < at then ids[j] else if j == at then finding.id else ids[j - 1];
    }
  }

  // ---- What a difference says ----

  datatype Change = Same | OfStatus | OfContent

  function ChangeOf(base: Finding, target: Finding): Change {
    if base == target then Same else if base.status != target.status then OfStatus else OfContent
  }

  /** A pair of findings the two runs have under one identifier. */
  ghost predicate IsPair(base: map<string, Finding>, target: seq<Finding>, p: Pair) {
    p.target in target && p.findingId == p.target.id && p.findingId in base && p.base == base[p.findingId]
  }

  ghost predicate PairsAre(base: map<string, Finding>, target: seq<Finding>, pairs: seq<Pair>, change: Change) {
    && Ascending(PairIds(pairs))
    && forall p :: p in pairs <==> IsPair(base, target, p) && ChangeOf(p.base, p.target) == change
  }

  /** The findings of one run the other has not, by identifier. */
  ghost predicate OnlyIn(base: map<string, Finding>, target: seq<Finding>, only: seq<Finding>) {
    && Ascending(Ids(only))
    && forall f :: f in only <==> f in target && f.id !in base
  }

  function PairOf(d: StatusDiff): Pair {
    Pair(d.findingId, d.base, d.target)
  }

  function PairsOf(diffs: seq<StatusDiff>): (pairs: seq<Pair>)
    ensures |pairs| == |diffs| && forall k :: 0 <= k < |pairs| ==> pairs[k] == PairOf(diffs[k])
  {
    seq(|diffs|, k requires 0 <= k < |diffs| => PairOf(diffs[k]))
  }

  ghost predicate StatusesAre(diffs: seq<StatusDiff>) {
    forall k :: 0 <= k < |diffs| ==>
      && diffs[k].fromStatus == diffs[k].base.status
      && diffs[k].toStatus == diffs[k].target.status
  }

  /** The buckets of a difference hold what they are for. */
  ghost predicate Buckets(base: seq<Finding>, target: seq<Finding>, diff: Diff)
    requires DistinctIds(base) && DistinctIds(target)
  {
    && OnlyIn(ById(base), target, diff.added)
    && OnlyIn(ById(target), base, diff.removed)
    && PairsAre(ById(base), target, diff.unaltered, Same)
    && PairsAre(ById(base), target, diff.contentChanged, OfContent)
    && PairsAre(ById(base), target, PairsOf(diff.statusChanged), OfStatus)
    && StatusesAre(diff.statusChanged)
  }

  function KindOfRun(origin: Origin): RunKind {
    if origin.AuditRun? then OfAudit else OfWorkflow
  }

  function SummaryOf(run: Run): Summary {
    Summary(run.metadata, KindOfRun(run.origin), |run.findings|, CountsOf(run.findings))
  }

  ghost predicate IsDiff(base: Run, target: Run, diff: Diff)
    requires DistinctIds(base.findings) && DistinctIds(target.findings)
  {
    && diff.baseReview == SummaryOf(base) && diff.targetReview == SummaryOf(target)
    && Buckets(base.findings, target.findings, diff)
  }

  // ---- Computing it ----

  /** Two runs compare when they came from the same source. */
  predicate Compatible(base: Origin, target: Origin) {
    match (base, target)
    case (AuditRun(audit, limit), AuditRun(audit', limit')) => audit == audit' && limit == limit'
    case (WorkflowRun(workflow, stepCount, inputs, stepIds), WorkflowRun(workflow', stepCount', inputs', stepIds')) =>
      workflow.id == workflow'.id && stepCount == stepCount' && inputs == inputs' && stepIds == stepIds'
    case _ => false
  }

  /** Runs fall into families that compare among themselves and with no other. */
  lemma CompatibleIsEquivalence(a: Origin, b: Origin, c: Origin)
    ensures Compatible(a, a)
    ensures Compatible(a, b) ==> Compatible(b, a)
    ensures Compatible(a, b) && Compatible(b, c) ==> Compatible(a, c)
    ensures a.AuditRun? ==> (Compatible(a, b) <==> a == b)
    ensures a.WorkflowRun? ==>
      (Compatible(a, b) <==> b.WorkflowRun? && a.workflow.id == b.workflow.id && b == a.(workflow := b.workflow))
  {
  }

  lemma AscendingAppend(ids: seq<string>, last: string)
    requires Ascending(ids) && forall id :: id in ids ==> TextLt(id, last)
    ensures Ascending(ids + [last])
  {
  }

  /** One more finding of the target, later than every one before it. */
  ghost predicate Later(seen: seq<Finding>, f: Finding) {
    forall g :: g in seen ==> TextLt(g.id, f.id)
  }

  lemma NextPair(base: map<string, Finding>, seen: seq<Finding>, pairs: seq<Pair>, change: Change, f: Finding)
    requires PairsAre(base, seen, pairs, change) && Later(seen, f)
    ensures
      var here := f.id in base && ChangeOf(base[f.id], f) == change;
      PairsAre(base, seen + [f], if here then pairs + [Pair(f.id, base[f.id], f)] else pairs, change)
  {
    hide TextLt, ChangeOf;
    if f.id in base && ChangeOf(base[f.id], f) == change {
      var p := Pair(f.id, base[f.id], f);
      assert forall q :: q in pairs ==> TextLt(q.findingId, f.id);
      AscendingAppend(PairIds(pairs), f.id);
      assert PairIds(pairs + [p]) == PairIds(pairs) + [f.id];
    }
  }

  lemma NextOnly(base: map<string, Finding>, seen: seq<Finding>, only: seq<Finding>, f: Finding)
    requires OnlyIn(base, seen, only) && Later(seen, f)
    ensures OnlyIn(base, seen + [f], if f.id in base then only else only + [f])
  {
    hide TextLt;
    if f.id !in base {
      AscendingAppend(Ids(only), f.id);
      assert Ids(only + [f]) == Ids(only) + [f.id];
    }
  }

  lemma LaterInOrder(order: seq<Finding>, n: nat)
    requires Ascending(Ids(order)) && n < |order|
    ensures Later(order[..n], order[n])
  {
    hide TextLt;
    forall g | g in order[..n] ensures TextLt(g.id, order[n].id) {
      var k :| 0 <= k < n && order[k] == g;
      assert TextLt(Ids(order)[k], Ids(order)[n]);
    }
  }

  lemma SameMembers(base: map<string, Finding>, a: seq<Finding>, b: seq<Finding>)
    requires forall f :: f in a <==> f in b
    ensures forall only :: OnlyIn(base, a, only) ==> OnlyIn(base, b, only)
    ensures forall pairs, change :: PairsAre(base, a, pairs, change) ==> PairsAre(base, b, pairs, change)
  {
    hide Ascending, ChangeOf;
  }

  method SortTarget(base: map<string, Finding>, order: seq<Finding>)
    returns (added: seq<Finding>, unaltered: seq<Pair>, contentChanged: seq<Pair>, statusChanged: seq<StatusDiff>)
    requires Ascending(Ids(order))
    ensures OnlyIn(base, order, added)
    ensures PairsAre(base, order, unaltered, Same) && PairsAre(base, order, contentChanged, OfContent)
    ensures PairsAre(base, order, PairsOf(statusChanged), OfStatus) && StatusesAre(statusChanged)
  {
    hide PairsAre, OnlyIn, TextLt, Later, Ascending;
    added, unaltered, contentChanged, statusChanged := [], [], [], [];
    NothingYet(base);
    for n := 0 to |order|
      invariant OnlyIn(base, order[..n], added)
      invariant PairsAre(base, order[..n], unaltered, Same) && PairsAre(base, order[..n], contentChanged, OfContent)
      invariant PairsAre(base, order[..n], PairsOf(statusChanged), OfStatus) && StatusesAre(statusChanged)
    {
      var f := order[n];
      LaterInOrder(order, n);
      NextOnly(base, order[..n], added, f);
      NextPair(base, order[..n], unaltered, Same, f);
      NextPair(base, order[..n], contentChanged, OfContent, f);
      NextPair(base, order[..n], PairsOf(statusChanged), OfStatus, f);
      assert order[..n] + [f] == order[..n + 1];
      if f.id in base {
        var g := base[f.id];
        if g == f {
          unaltered := unaltered + [Pair(f.id, g, f)];
        } else if g.status != f.status {
          ghost var was := statusChanged;
          statusChanged := statusChanged + [StatusDiff(f.id, g.status, f.status, g, f)];
          assert PairsOf(statusChanged) == PairsOf(was) + [Pair(f.id, g, f)];
        } else {
          contentChanged := contentChanged + [Pair(f.id, g, f)];
        }
      } else {
        added := added + [f];
      }
    }
    assert order[..|order|] == order;
  }

  lemma NothingYet(base: map<string, Finding>)
    ensures OnlyIn(base, [], []) && PairsAre(base, [], PairsOf([]), OfStatus)
    ensures forall change :: PairsAre(base, [], [], change)
  {
  }

  method Absent(present: map<string, Finding>, order: seq<Finding>) returns (absent: seq<Finding>)
    requires Ascending(Ids(order))
    ensures OnlyIn(present, order, absent)
  {
    hide OnlyIn, TextLt, Later, Ascending;
    absent := [];
    NothingYet(present);
    for n := 0 to |order|
      invariant OnlyIn(present, order[..n], absent)
    {
      LaterInOrder(order, n);
      NextOnly(present, order[..n], absent, order[n]);
      assert order[..n] + [order[n]] == order[..n + 1];
      if order[n].id !in present {
        absent := absent + [order[n]];
      }
    }
    assert order[..|order|] == order;
  }

  /** The difference of two valid, compatible runs; otherwise which of them is not. */
  method Between(base: Run, target: Run) returns (r: Result<Diff, DiffError>)
    ensures r.Ok? <==> ValidRun(base) && ValidRun(target) && Compatible(base.origin, target.origin)
    ensures r.Ok? ==> IsDiff(base, target, r.value)
    ensures r.Ok? ==>
      && r.value.baseReview.metadata == base.metadata && r.value.targetReview.metadata == target.metadata
      && (r.value.baseReview.kind == OfAudit <==> base.origin.AuditRun?)
      && (r.value.targetReview.kind == OfAudit <==> target.origin.AuditRun?)
      && r.value.baseReview.findingCount == |base.findings| && r.value.targetReview.findingCount == |target.findings|
    ensures (r.Err? && r.error.BaseInvalid?) <==> !ValidRun(base)
    ensures (r.Err? && r.error.TargetInvalid?) <==> ValidRun(base) && !ValidRun(target)
    ensures r.Err? && r.error.BaseInvalid? ==> BlamesRun(base, r.error.error)
    ensures r.Err? && r.error.TargetInvalid? ==> BlamesRun(target, r.error.error)
  {
    hide Ascending, OnlyIn, PairsAre, StatusesAre, Compatible;
    hide GoodOrigin, FindingFields, BelongsTo, DistinctSteps, BlamesRun;
    var baseError := ValidationError(base);
    if baseError.Some? {
      return Err(BaseInvalid(baseError.value));
    }
    var targetError := ValidationError(target);
    if targetError.Some? {
      return Err(TargetInvalid(targetError.value));
    }
    if !Compatible(base.origin, target.origin) {
      return Err(Incompatible);
    }
    var baseFindings, targetFindings := ById(base.findings), ById(target.findings);
    var baseOrder := InOrder(base.findings);
    var targetOrder := InOrder(target.findings);
    var added, unaltered, contentChanged, statusChanged := SortTarget(baseFindings, targetOrder);
    var removed := Absent(targetFindings, baseOrder);
    var baseCounts := FromFindings(base.findings);
    var targetCounts := FromFindings(target.findings);
    SameMembers(baseFindings, targetOrder, target.findings);
    SameMembers(targetFindings, baseOrder, base.findings);
    r := Ok(Diff(Summary(base.metadata, KindOfRun(base.origin), |base.findings|, baseCounts),
                 Summary(target.metadata, KindOfRun(target.origin), |target.findings|, targetCounts),
                 added, removed, unaltered, contentChanged, statusChanged));
  }

  // ---- What a difference means ----

  lemma FirstIsMember<T>(s: seq<T>)
    ensures s != [] ==> s[0] in s
  {
  }

  lemma TailMembers<T>(a: seq<T>, keyOf: T -> string)
    requires a != [] && forall i, j :: 0 <= i < j < |a| ==> TextLt(keyOf(a[i]), keyOf(a[j]))
    ensures forall x :: x in a[1..] <==> x in a && x != a[0]
  {
    hide TextLe;
    assert a == [a[0]] + a[1..];
    forall x | x in a[1..] ensures x != a[0] {
      var i :| 1 <= i < |a| && a[i] == x;
    }
  }

  lemma {:induction false} AscendingIsUnique<T>(a: seq<T>, b: seq<T>, keyOf: T -> string)
    requires forall i, j :: 0 <= i < j < |a| ==> TextLt(keyOf(a[i]), keyOf(a[j]))
    requires forall i, j :: 0 <= i < j < |b| ==> TextLt(keyOf(b[i]), keyOf(b[j]))
    requires forall x :: x in a <==> x in b
    ensures a == b
  {
    hide TextLe;
    FirstIsMember(b);
    if a != [] {
      assert a[0] in b;
      assert b[0] in a;
      if a[0] != b[0] {
        TextLeAntisymmetric(keyOf(a[0]), keyOf(b[0]));
        assert false;
      }
      TailMembers(a, keyOf);
      TailMembers(b, keyOf);
      AscendingIsUnique(a[1..], b[1..], keyOf);
    }
  }

  lemma OnlyInIsUnique(base: map<string, Finding>, target: seq<Finding>, a: seq<Finding>, b: seq<Finding>)
    requires OnlyIn(base, target, a) && OnlyIn(base, target, b)
    ensures a == b
  {
    hide TextLt;
    assert forall i, j :: 0 <= i < j < |a| ==> TextLt(Ids(a)[i], Ids(a)[j]);
    assert forall i, j :: 0 <= i < j < |b| ==> TextLt(Ids(b)[i], Ids(b)[j]);
    AscendingIsUnique(a, b, (f: Finding) => f.id);
  }

  lemma PairsAreUnique(base: map<string, Finding>, target: seq<Finding>, a: seq<Pair>, b: seq<Pair>, change: Change)
    requires PairsAre(base, target, a, change) && PairsAre(base, target, b, change)
    ensures a == b
  {
    hide TextLt, IsPair, ChangeOf;
    assert forall i, j :: 0 <= i < j < |a| ==> TextLt(PairIds(a)[i], PairIds(a)[j]);
    assert forall i, j :: 0 <= i < j < |b| ==> TextLt(PairIds(b)[i], PairIds(b)[j]);
    AscendingIsUnique(a, b, (p: Pair) => p.findingId);
  }

  /** Nothing about a difference is left to choice. */
  lemma DiffIsUnique(base: Run, target: Run, a: Diff, b: Diff)
    requires DistinctIds(base.findings) && DistinctIds(target.findings)
    requires IsDiff(base, target, a) && IsDiff(base, target, b)
    ensures a == b
  {
    hide Buckets;
    BucketsAreUnique(base.findings, target.findings, a, b);
  }

  lemma BucketsAreUnique(base: seq<Finding>, target: seq<Finding>, a: Diff, b: Diff)
    requires DistinctIds(base) && DistinctIds(target) && Buckets(base, target, a) && Buckets(base, target, b)
    ensures b == a.(baseReview := b.baseReview, targetReview := b.targetReview)
  {
    hide OnlyIn, PairsAre;
    OnlyInIsUnique(ById(base), target, a.added, b.added);
    OnlyInIsUnique(ById(target), base, a.removed, b.removed);
    PairsAreUnique(ById(base), target, a.unaltered, b.unaltered, Same);
    PairsAreUnique(ById(base), target, a.contentChanged, b.contentChanged, OfContent);
    PairsAreUnique(ById(base), target, PairsOf(a.statusChanged), PairsOf(b.statusChanged), OfStatus);
    var s, t := a.statusChanged, b.statusChanged;
    assert |s| == |PairsOf(s)| == |PairsOf(t)| == |t|;
    forall k | 0 <= k < |s| ensures s[k] == t[k] {
      assert PairsOf(s)[k] == PairsOf(t)[k];
    }
  }

  // ---- What the buckets hold ----

  /** What a pair in a bucket says: of findings of one identifier that are the same, or
      differ in status, or differ in content alone. */
  lemma BucketsSay(base: seq<Finding>, target: seq<Finding>, diff: Diff)
    requires DistinctIds(base) && DistinctIds(target) && Buckets(base, target, diff)
    ensures forall p :: p in diff.unaltered ==> p.base == p.target
    ensures forall p :: p in diff.contentChanged ==>
      p.base.status == p.target.status && p.base.content != p.target.content
    ensures forall d :: d in diff.statusChanged ==>
      d.fromStatus != d.toStatus && d.fromStatus == d.base.status && d.toStatus == d.target.status
    ensures forall p :: p in diff.unaltered || p in diff.contentChanged ==>
      p.base in base && p.target in target && p.base.id == p.target.id == p.findingId
    ensures forall d :: d in diff.statusChanged ==>
      d.base in base && d.target in target && d.base.id == d.target.id == d.findingId
  {
    hide Ascending, IsPair, ById, OnlyIn;
    forall p | p in diff.unaltered || p in diff.contentChanged
      ensures p.base in base && p.target in target && p.base.id == p.target.id == p.findingId
    {
      PairSides(base, target, p);
    }
    forall d | d in diff.statusChanged
      ensures d.base in base && d.target in target && d.base.id == d.target.id == d.findingId
      ensures d.fromStatus != d.toStatus && d.fromStatus == d.base.status && d.toStatus == d.target.status
    {
      StatusPair(diff.statusChanged, d);
      PairSides(base, target, PairOf(d));
    }
  }

  lemma PairSides(base: seq<Finding>, target: seq<Finding>, p: Pair)
    requires DistinctIds(base) && IsPair(ById(base), target, p)
    ensures p.base in base && p.target in target && p.base.id == p.target.id == p.findingId
  {
    var k :| 0 <= k < |base| && base[k].id == p.findingId;
    assert ById(base)[base[k].id] == base[k];
  }

  lemma StatusPair(diffs: seq<StatusDiff>, d: StatusDiff)
    requires StatusesAre(diffs) && d in diffs
    ensures PairOf(d) in PairsOf(diffs) && d.fromStatus == d.base.status && d.toStatus == d.target.status
  {
    var k :| 0 <= k < |diffs| && diffs[k] == d;
    assert PairsOf(diffs)[k] == PairOf(d);
  }

  /** The one bucket two findings of one identifier are in. */
  lemma BucketOfPair(base: seq<Finding>, target: seq<Finding>, diff: Diff, b: Finding, t: Finding)
    requires DistinctIds(base) && DistinctIds(target) && Buckets(base, target, diff)
    requires b in base && t in target && b.id == t.id
    ensures Pair(b.id, b, t) in diff.unaltered <==> b == t
    ensures Pair(b.id, b, t) in diff.contentChanged <==> b.status == t.status && b.content != t.content
    ensures StatusDiff(b.id, b.status, t.status, b, t) in diff.statusChanged <==> b.status != t.status
  {
    var pair := Pair(b.id, b, t);
    var k :| 0 <= k < |base| && base[k] == b;
    assert ById(base)[base[k].id] == base[k];
    assert IsPair(ById(base), target, pair);
    hide Ascending, IsPair, ById, OnlyIn;
    if b.status != t.status {
      assert pair in PairsOf(diff.statusChanged);
      var j :| 0 <= j < |diff.statusChanged| && PairsOf(diff.statusChanged)[j] == pair;
      assert diff.statusChanged[j] == StatusDiff(b.id, b.status, t.status, b, t);
    }
    BucketsSay(base, target, diff);
  }

  /** A finding is added, or removed, exactly when the other run has none of its
      identifier. */
  lemma OnlyOnOneSide(base: seq<Finding>, target: seq<Finding>, diff: Diff, f: Finding)
    requires DistinctIds(base) && DistinctIds(target) && Buckets(base, target, diff)
    ensures f in diff.added <==> f in target && forall b :: b in base ==> b.id != f.id
    ensures f in diff.removed <==> f in base && forall t :: t in target ==> t.id != f.id
  {
    hide Ascending, PairsAre;
  }

  // ---- The mirror ----

  function Flip(p: Pair): Pair {
    Pair(p.findingId, p.target, p.base)
  }

  function FlipAll(pairs: seq<Pair>): (flipped: seq<Pair>)
    ensures |flipped| == |pairs| && forall k :: 0 <= k < |flipped| ==> flipped[k] == Flip(pairs[k])
  {
    seq(|pairs|, k requires 0 <= k < |pairs| => Flip(pairs[k]))
  }

  function FlipStatuses(diffs: seq<StatusDiff>): (flipped: seq<StatusDiff>)
    ensures |flipped| == |diffs|
    ensures forall k :: 0 <= k < |flipped| ==>
      flipped[k] ==
      StatusDiff(diffs[k].findingId, diffs[k].toStatus, diffs[k].fromStatus, diffs[k].target, diffs[k].base)
  {
    seq(|diffs|, k requires 0 <= k < |diffs| =>
      StatusDiff(diffs[k].findingId, diffs[k].toStatus, diffs[k].fromStatus, diffs[k].target, diffs[k].base))
  }

  function Mirror(diff: Diff): Diff {
    Diff(diff.targetReview, diff.baseReview, diff.removed, diff.added,
         FlipAll(diff.unaltered), FlipAll(diff.contentChanged), FlipStatuses(diff.statusChanged))
  }

  lemma PairFlips(base: seq<Finding>, target: seq<Finding>, p: Pair)
    requires DistinctIds(base) && DistinctIds(target)
    ensures IsPair(ById(base), target, p) <==> IsPair(ById(target), base, Flip(p))
  {
    if IsPair(ById(base), target, p) {
      var k :| 0 <= k < |target| && target[k] == p.target;
      var j :| 0 <= j < |base| && base[j].id == p.findingId;
    }
    if IsPair(ById(target), base, Flip(p)) {
      var k :| 0 <= k < |base| && base[k] == p.base;
      var j :| 0 <= j < |target| && target[j].id == p.findingId;
    }
  }

  lemma PairsFlip(base: seq<Finding>, target: seq<Finding>, pairs: seq<Pair>, change: Change)
    requires DistinctIds(base) && DistinctIds(target) && PairsAre(ById(base), target, pairs, change)
    ensures PairsAre(ById(target), base, FlipAll(pairs), change)
  {
    hide TextLt, IsPair, ById;
    assert PairIds(FlipAll(pairs)) == PairIds(pairs);
    forall p ensures p in FlipAll(pairs) <==> IsPair(ById(target), base, p) && ChangeOf(p.base, p.target) == change {
      PairFlips(base, target, Flip(p));
      assert Flip(Flip(p)) == p;
      if Flip(p) in pairs {
        var k :| 0 <= k < |pairs| && pairs[k] == Flip(p);
        assert FlipAll(pairs)[k] == p;
      }
      if p in FlipAll(pairs) {
        var k :| 0 <= k < |pairs| && FlipAll(pairs)[k] == p;
        assert pairs[k] == Flip(p);
      }
    }
  }

  lemma BucketsMirror(base: seq<Finding>, target: seq<Finding>, diff: Diff)
    requires DistinctIds(base) && DistinctIds(target) && Buckets(base, target, diff)
    ensures Buckets(target, base, Mirror(diff))
  {
    hide OnlyIn, PairsAre;
    PairsFlip(base, target, diff.unaltered, Same);
    PairsFlip(base, target, diff.contentChanged, OfContent);
    PairsFlip(base, target, PairsOf(diff.statusChanged), OfStatus);
    assert PairsOf(FlipStatuses(diff.statusChanged)) == FlipAll(PairsOf(diff.statusChanged));
  }

  /** The difference the other way round is the mirror of this one. */
  lemma SwapMirrors(base: Run, target: Run, diff: Diff, back: Diff)
    requires DistinctIds(base.findings) && DistinctIds(target.findings) && IsDiff(base, target, diff)
    ensures IsDiff(target, base, back) <==> back == Mirror(diff)
  {
    hide Buckets;
    BucketsMirror(base.findings, target.findings, diff);
    assert IsDiff(target, base, Mirror(diff));
    if IsDiff(target, base, back) {
      DiffIsUnique(target, base, back, Mirror(diff));
    }
  }

  // ---- Partition and patch ----

  ghost function IdSet(ids: seq<string>): set<string> {
    set id | id in ids
  }

  /** The identifiers each bucket speaks of. */
  lemma BucketIds(base: seq<Finding>, target: seq<Finding>, diff: Diff, id: string)
    requires DistinctIds(base) && DistinctIds(target) && Buckets(base, target, diff)
    ensures
      var b, t := ById(base), ById(target);
      && (id in Ids(diff.added) <==> id in t && id !in b)
      && (id in Ids(diff.removed) <==> id in b && id !in t)
      && (id in PairIds(diff.unaltered) <==> id in b && id in t && ChangeOf(b[id], t[id]) == Same)
      && (id in PairIds(diff.contentChanged) <==> id in b && id in t && ChangeOf(b[id], t[id]) == OfContent)
      && (id in PairIds(PairsOf(diff.statusChanged)) <==> id in b && id in t && ChangeOf(b[id], t[id]) == OfStatus)
  {
    OnlyIds(base, target, diff.added, id);
    OnlyIds(target, base, diff.removed, id);
    PairedIds(base, target, diff.unaltered, Same, id);
    PairedIds(base, target, diff.contentChanged, OfContent, id);
    PairedIds(base, target, PairsOf(diff.statusChanged), OfStatus, id);
  }

  lemma OnlyIds(base: seq<Finding>, target: seq<Finding>, only: seq<Finding>, id: string)
    requires DistinctIds(base) && DistinctIds(target) && OnlyIn(ById(base), target, only)
    ensures id in Ids(only) <==> id in ById(target) && id !in ById(base)
  {
    hide Ascending;
    if id in Ids(only) {
      var k :| 0 <= k < |only| && Ids(only)[k] == id;
      assert only[k] in target;
    }
    if id in ById(target) && id !in ById(base) {
      var f := ById(target)[id];
      assert f in only;
      var k :| 0 <= k < |only| && only[k] == f;
      assert Ids(only)[k] == id;
    }
  }

  lemma PairedIds(base: seq<Finding>, target: seq<Finding>, pairs: seq<Pair>, change: Change, id: string)
    requires DistinctIds(base) && DistinctIds(target) && PairsAre(ById(base), target, pairs, change)
    ensures
      var b, t := ById(base), ById(target);
      id in PairIds(pairs) <==> id in b && id in t && ChangeOf(b[id], t[id]) == change
    ensures forall p :: p in pairs ==> p.findingId in ById(target) && p.target == ById(target)[p.findingId]
  {
    hide Ascending, ChangeOf;
    var b, t := ById(base), ById(target);
    if id in b && id in t && ChangeOf(b[id], t[id]) == change {
      var p := Pair(id, b[id], t[id]);
      assert p in pairs;
      var k :| 0 <= k < |pairs| && pairs[k] == p;
      assert PairIds(pairs)[k] == id;
    }
    if id in PairIds(pairs) {
      var k :| 0 <= k < |pairs| && PairIds(pairs)[k] == id;
      assert pairs[k] in pairs;
    }
  }

  /** Every finding of the target is added or paired, every one of the base removed
      or paired, and in one bucket only. */
  lemma BucketsPartition(base: seq<Finding>, target: seq<Finding>, diff: Diff)
    requires DistinctIds(base) && DistinctIds(target) && Buckets(base, target, diff)
    ensures
      var added, removed := IdSet(Ids(diff.added)), IdSet(Ids(diff.removed));
      var same, content, status :=
        IdSet(PairIds(diff.unaltered)), IdSet(PairIds(diff.contentChanged)),
        IdSet(PairIds(PairsOf(diff.statusChanged)));
      && ById(target).Keys == added + same + content + status
      && ById(base).Keys == removed + same + content + status
      && added !! removed !! same !! content !! status
  {
    hide Buckets, ById, ChangeOf;
    forall id {
      BucketIds(base, target, diff, id);
    }
  }

  ghost function Paired(pairs: seq<Pair>): map<string, Finding>
    requires Ascending(PairIds(pairs))
  {
    AscendingIsDistinct(PairIds(pairs));
    map k | 0 <= k < |pairs| :: PairIds(pairs)[k] := pairs[k].target
  }

  lemma AscendingIsDistinct(ids: seq<string>)
    requires Ascending(ids)
    ensures forall i, j :: 0 <= i < j < |ids| ==> ids[i] != ids[j]
  {
  }

  ghost function AddedMap(findings: seq<Finding>): map<string, Finding>
    requires Ascending(Ids(findings))
  {
    AscendingIsDistinct(Ids(findings));
    map k | 0 <= k < |findings| :: Ids(findings)[k] := findings[k]
  }

  ghost predicate Applies(diff: Diff) {
    && Ascending(Ids(diff.added)) && Ascending(PairIds(diff.contentChanged))
    && Ascending(PairIds(PairsOf(diff.statusChanged)))
  }

  /** What a difference makes of a base. */
  ghost function Patch(base: map<string, Finding>, diff: Diff): map<string, Finding>
    requires Applies(diff)
  {
    base - IdSet(Ids(diff.removed)) + AddedMap(diff.added) + Paired(diff.contentChanged)
    + Paired(PairsOf(diff.statusChanged))
  }

  lemma AddedMapIs(base: seq<Finding>, target: seq<Finding>, added: seq<Finding>, id: string)
    requires DistinctIds(base) && DistinctIds(target) && OnlyIn(ById(base), target, added)
    ensures id in AddedMap(added) <==> id in Ids(added)
    ensures id in AddedMap(added) ==> id in ById(target) && AddedMap(added)[id] == ById(target)[id]
  {
    hide TextLt;
    if id in AddedMap(added) {
      var k :| 0 <= k < |added| && Ids(added)[k] == id;
      assert added[k] in added;
    }
  }

  lemma PairedIs(base: seq<Finding>, target: seq<Finding>, pairs: seq<Pair>, change: Change, id: string)
    requires DistinctIds(base) && DistinctIds(target) && PairsAre(ById(base), target, pairs, change)
    ensures id in Paired(pairs) <==> id in PairIds(pairs)
    ensures id in Paired(pairs) ==> id in ById(target) && Paired(pairs)[id] == ById(target)[id]
  {
    hide TextLt;
    PairedIds(base, target, pairs, change, id);
    if id in Paired(pairs) {
      var k :| 0 <= k < |pairs| && PairIds(pairs)[k] == id;
      assert pairs[k] in pairs;
    }
  }

  lemma PatchAt(base: seq<Finding>, target: seq<Finding>, diff: Diff, id: string)
    requires DistinctIds(base) && DistinctIds(target) && Buckets(base, target, diff) && Applies(diff)
    ensures
      var patched, t := Patch(ById(base), diff), ById(target);
      (id in patched <==> id in t) && (id in t ==> patched[id] == t[id])
  {
    hide IsPair, Ascending, ById, AddedMap, Paired, StatusesAre, DistinctIds, TextLt;
    BucketIds(base, target, diff, id);
    assert OnlyIn(ById(base), target, diff.added) && PairsAre(ById(base), target, diff.contentChanged, OfContent)
        && PairsAre(ById(base), target, PairsOf(diff.statusChanged), OfStatus);
    hide Buckets, OnlyIn, PairsAre, Ids, PairIds, PairsOf;
    AddedMapIs(base, target, diff.added, id);
    PairedIs(base, target, diff.contentChanged, OfContent, id);
    PairedIs(base, target, PairsOf(diff.statusChanged), OfStatus, id);
  }

  /** A difference carries everything needed to get from the base to the target. */
  lemma PatchReachesTarget(base: seq<Finding>, target: seq<Finding>, diff: Diff)
    requires DistinctIds(base) && DistinctIds(target) && Buckets(base, target, diff)
    ensures Applies(diff)
    ensures Patch(ById(base), diff) == ById(target)
  {
    hide Ascending, IsPair, StatusesAre, Patch, ById, DistinctIds;
    assert Applies(diff);
    hide Buckets, Applies;
    forall id
      ensures id in Patch(ById(base), diff) <==> id in ById(target)
      ensures id in ById(target) ==> Patch(ById(base), diff)[id] == ById(target)[id]
    {
      PatchAt(base, target, diff, id);
    }
  }

  // ---- Conservation ----

  ghost function Bases(pairs: seq<Pair>): (findings: seq<Finding>)
    ensures |findings| == |pairs| && forall k :: 0 <= k < |findings| ==> findings[k] == pairs[k].base
  {
    seq(|pairs|, k requires 0 <= k < |pairs| => pairs[k].base)
  }

  ghost function Targets(pairs: seq<Pair>): (findings: seq<Finding>)
    ensures |findings| == |pairs| && forall k :: 0 <= k < |findings| ==> findings[k] == pairs[k].target
  {
    seq(|pairs|, k requires 0 <= k < |pairs| => pairs[k].target)
  }

  lemma {:induction false} CountConcat(a: seq<Finding>, b: seq<Finding>, status: Status)
    ensures Count(a + b, status) == Count(a, status) + Count(b, status)
  {
    if b == [] {
      assert a + b == a;
    } else {
      var n := |b| - 1;
      CountConcat(a, b[..n], status);
      assert (a + b)[..|a + b| - 1] == a + b[..n];
    }
  }

  lemma {:induction false} CountRemoved(a: seq<Finding>, k: nat, status: Status)
    requires k < |a|
    ensures Count(a, status) == Count(a[..k] + a[k + 1..], status) + if a[k].status == status then 1 else 0
  {
    CountConcat(a[..k], a[k + 1..], status);
    CountConcat(a[..k], [a[k]], status);
    CountConcat(a[..k] + [a[k]], a[k + 1..], status);
    assert a == a[..k] + [a[k]] + a[k + 1..];
  }

  lemma OneRemoved<T>(s: seq<T>, k: nat)
    requires k < |s|
    ensures multiset(s[..k] + s[k + 1..]) == multiset(s) - multiset{s[k]}
  {
    assert s == s[..k] + [s[k]] + s[k + 1..];
  }

  lemma HeadMoved<T>(a: seq<T>, b: seq<T>) returns (k: nat)
    requires multiset(a) == multiset(b) && a != []
    ensures k < |b| && b[k] == a[0]
    ensures multiset(a[..0] + a[1..]) == multiset(b[..k] + b[k + 1..])
  {
    assert a[0] in multiset(a);
    assert a[0] in b;
    k :| 0 <= k < |b| && b[k] == a[0];
    OneRemoved(a, 0);
    OneRemoved(b, k);
  }

  lemma {:induction false} CountOfMultiset(a: seq<Finding>, b: seq<Finding>, status: Status)
    requires multiset(a) == multiset(b)
    ensures Count(a, status) == Count(b, status)
    decreases |a|
  {
    hide Count;
    assert |a| == |b| by {
      assert |multiset(a)| == |multiset(b)|;
    }
    if a == [] {
      assert a == b;
    } else {
      var k := HeadMoved(a, b);
      CountOfMultiset(a[..0] + a[1..], b[..k] + b[k + 1..], status);
      CountRemoved(a, 0, status);
      CountRemoved(b, k, status);
    }
  }

  lemma {:induction false} CountSameStatuses(a: seq<Finding>, b: seq<Finding>, status: Status)
    requires |a| == |b| && forall k :: 0 <= k < |a| ==> a[k].status == b[k].status
    ensures Count(a, status) == Count(b, status)
  {
    if a != [] {
      CountSameStatuses(a[..|a| - 1], b[..|b| - 1], status);
    }
  }

  /** The target is what was added and the target sides of the pairs. */
  ghost function TargetSides(diff: Diff): seq<Finding> {
    diff.added + Targets(diff.unaltered) + Targets(diff.contentChanged) + Targets(PairsOf(diff.statusChanged))
  }

  lemma OnlyCounts(base: map<string, Finding>, target: seq<Finding>, only: seq<Finding>, f: Finding)
    requires OnlyIn(base, target, only)
    ensures multiset(only)[f] == if f in target && f.id !in base then 1 else 0
  {
    hide TextLt;
    AscendingIsDistinct(Ids(only));
    forall i, j | 0 <= i < j < |only| ensures only[i] != only[j] {
      assert Ids(only)[i] != Ids(only)[j];
    }
    DistinctCounts(only, f);
  }

  lemma TargetsCount(base: map<string, Finding>, target: seq<Finding>, pairs: seq<Pair>, change: Change, f: Finding)
    requires PairsAre(base, target, pairs, change)
    ensures multiset(Targets(pairs))[f] ==
            if f in target && f.id in base && ChangeOf(base[f.id], f) == change then 1 else 0
  {
    hide TextLt, ChangeOf;
    var targets := Targets(pairs);
    AscendingIsDistinct(PairIds(pairs));
    forall i | 0 <= i < |targets| ensures targets[i].id == PairIds(pairs)[i] {
      assert pairs[i] in pairs;
    }
    forall i, j | 0 <= i < j < |targets| ensures targets[i] != targets[j] {
      assert PairIds(pairs)[i] != PairIds(pairs)[j];
    }
    DistinctCounts(targets, f);
    if f in target && f.id in base && ChangeOf(base[f.id], f) == change {
      assert Pair(f.id, base[f.id], f) in pairs;
      var k :| 0 <= k < |pairs| && pairs[k] == Pair(f.id, base[f.id], f);
      assert targets[k] == f;
    }
    if f in targets {
      var k :| 0 <= k < |pairs| && targets[k] == f;
      assert pairs[k] in pairs;
    }
  }

  lemma TargetIsItsSides(base: seq<Finding>, target: seq<Finding>, diff: Diff)
    requires DistinctIds(base) && DistinctIds(target) && Buckets(base, target, diff)
    ensures multiset(target) == multiset(TargetSides(diff))
  {
    hide ById, OnlyIn, PairsAre, Targets, PairsOf, StatusesAre;
    var b := ById(base);
    forall f ensures multiset(target)[f] == multiset(TargetSides(diff))[f] {
      DistinctCounts(target, f);
      OnlyCounts(b, target, diff.added, f);
      TargetsCount(b, target, diff.unaltered, Same, f);
      TargetsCount(b, target, diff.contentChanged, OfContent, f);
      TargetsCount(b, target, PairsOf(diff.statusChanged), OfStatus, f);
    }
  }

  ghost function Moves(diffs: seq<StatusDiff>, from: bool, status: Status): nat {
    Count(if from then Bases(PairsOf(diffs)) else Targets(PairsOf(diffs)), status)
  }

  lemma PairsKeepStatus(base: map<string, Finding>, target: seq<Finding>, pairs: seq<Pair>, change: Change,
                        status: Status)
    requires PairsAre(base, target, pairs, change) && change != OfStatus
    ensures Count(Bases(pairs), status) == Count(Targets(pairs), status)
  {
    forall k | 0 <= k < |pairs| ensures pairs[k].base.status == pairs[k].target.status {
      assert pairs[k] in pairs;
    }
    CountSameStatuses(Bases(pairs), Targets(pairs), status);
  }

  lemma SidesCount(base: seq<Finding>, target: seq<Finding>, diff: Diff, status: Status)
    requires DistinctIds(base) && DistinctIds(target) && Buckets(base, target, diff)
    ensures Count(target, status)
         == Count(diff.added, status) + Count(Targets(diff.unaltered), status)
            + Count(Targets(diff.contentChanged), status) + Moves(diff.statusChanged, false, status)
  {
    hide ById, OnlyIn, PairsAre, Targets, PairsOf, StatusesAre, Count, Buckets;
    TargetIsItsSides(base, target, diff);
    CountOfMultiset(target, TargetSides(diff), status);
    var a, b := diff.added, Targets(diff.unaltered);
    var c, d := Targets(diff.contentChanged), Targets(PairsOf(diff.statusChanged));
    CountConcat(a, b, status);
    CountConcat(a + b, c, status);
    CountConcat(a + b + c, d, status);
  }

  /** Status by status, what the base has and what was added or changed to it is
      what the target has and what was removed or changed from it. */
  lemma StatusesBalance(base: seq<Finding>, target: seq<Finding>, diff: Diff, status: Status)
    requires DistinctIds(base) && DistinctIds(target) && Buckets(base, target, diff)
    ensures Count(base, status) + Count(diff.added, status) + Moves(diff.statusChanged, false, status)
         == Count(target, status) + Count(diff.removed, status) + Moves(diff.statusChanged, true, status)
  {
    hide ById, OnlyIn, PairsAre, PairsOf, StatusesAre, Count;
    SidesCount(base, target, diff, status);
    BucketsMirror(base, target, diff);
    SidesCount(target, base, Mirror(diff), status);
    PairsKeepStatus(ById(base), target, diff.unaltered, Same, status);
    PairsKeepStatus(ById(base), target, diff.contentChanged, OfContent, status);
    assert Targets(FlipAll(diff.unaltered)) == Bases(diff.unaltered);
    assert Targets(FlipAll(diff.contentChanged)) == Bases(diff.contentChanged);
    assert Targets(PairsOf(FlipStatuses(diff.statusChanged))) == Bases(PairsOf(diff.statusChanged));
  }
}
