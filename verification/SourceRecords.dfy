/** Source records (source_identity.rs): what one must look like, and what a history
    of changes to one keeps. */
module SourceRecords {
  import opened Basics
  import opened Text
  import opened Splitting
  import opened RemoteUrls

  datatype Provider = GenericHttps | GitHub
  datatype Visibility = Public | Private

  const GITHUB_AUTHORITY := "github.com"

  function Authority(provider: Provider): Option<string> {
    match provider
    case GenericHttps => None
    case GitHub => Some(GITHUB_AUTHORITY)
  }

  predicate SupportsPrivateAccess(provider: Provider) {
    provider.GitHub?
  }

  /** A record, and equally the configuration it is accepted from. */
  datatype Record = Record(
    id: string, displayName: string, provider: Provider, visibility: Visibility, repositoryId: Option<string>,
    account: Option<string>, remote: string, branch: string, notesFolder: string, credential: Option<string>)

  datatype RecordError =
    | UnsupportedPrivateProvider(provider: Provider)
    | UnsupportedAuthority(provider: Provider)
    | UnsupportedRepositoryPath(provider: Provider)
    | UnsupportedRepositoryId(provider: Provider)
    | MissingRepositoryIdentity | MissingAccountIdentity | MissingCredentialReference
    | UnexpectedAccountIdentity | UnexpectedCredentialReference

  function StripGit(repository: string): string {
    if |repository| >= 4 && repository[|repository| - 4..] == ".git" then repository[..|repository| - 4] else repository
  }

  function RemoteError(provider: Provider, remote: string): Option<RecordError> {
    match Authority(provider)
    case None => None
    case Some(authority) =>
      if Host(remote) != authority || Port(remote).Some? then Some(UnsupportedAuthority(provider))
      else
        var path := if Path(remote) != [] && Path(remote)[0] == '/' then Path(remote)[1..] else [];
        var segments := Split(path, '/');
        var owner := segments[0];
        var repository := StripGit(if |segments| > 1 then segments[1] else []);
        if |segments| > 2 || owner == [] || repository == [] then Some(UnsupportedRepositoryPath(provider)) else None
  }

  function PrivacyError(c: Record): Option<RecordError> {
    match c.visibility
    case Private =>
      if !SupportsPrivateAccess(c.provider) then Some(UnsupportedPrivateProvider(c.provider))
      else if c.repositoryId.None? then Some(MissingRepositoryIdentity)
      else if c.account.None? then Some(MissingAccountIdentity)
      else if c.credential.None? then Some(MissingCredentialReference)
      else None
    case Public =>
      if c.account.Some? then Some(UnexpectedAccountIdentity)
      else if c.credential.Some? then Some(UnexpectedCredentialReference)
      else None
  }

  function New(c: Record): Result<Record, RecordError> {
    if RemoteError(c.provider, c.remote).Some? then Err(RemoteError(c.provider, c.remote).value)
    else if PrivacyError(c).Some? then Err(PrivacyError(c).value)
    else if Authority(c.provider).None? && c.repositoryId.Some? then Err(UnsupportedRepositoryId(c.provider))
    else Ok(c)
  }

  // ---- Changes ----

  datatype Evidence = Evidence(provider: Provider, repository: string, remote: string, account: Option<string>)

  datatype Change =
    | Relabel(displayName: string)
    | TrackBranch(branch: string)
    | TrackNotesFolder(notesFolder: string)
    | Relocate(remote: string, evidence: Evidence)
    | Reauthorize(account: string, credential: string)

  datatype Retained = Everything | IdentityAndReadingState | IdentityOnly
  datatype Transition = Transition(record: Record, retained: Retained)

  datatype ChangeError =
    | DifferentRepository | DifferentProvider | UnobservedRemote | DifferentAuthorization
    | UnprovableRepository | UnsupportedRemote(error: RecordError) | NotAuthorized

  method Apply(record: Record, change: Change) returns (r: Result<Transition, ChangeError>)
    ensures r == Applied(record, change)
  {
    var changed := record;
    var retained: Retained;
    match change {
      case Relabel(displayName) =>
        changed := changed.(displayName := displayName);
        retained := Everything;
      case TrackBranch(branch) =>
        var same := branch == changed.branch;
        changed := changed.(branch := branch);
        retained := if same then Everything else IdentityAndReadingState;
      case TrackNotesFolder(notesFolder) =>
        var same := notesFolder == changed.notesFolder;
        changed := changed.(notesFolder := notesFolder);
        retained := if same then Everything else IdentityAndReadingState;
      case Relocate(remote, evidence) =>
        if changed.repositoryId.None? {
          return Err(UnprovableRepository);
        }
        if evidence.provider != changed.provider {
          return Err(DifferentProvider);
        }
        if evidence.repository != changed.repositoryId.value {
          return Err(DifferentRepository);
        }
        if evidence.remote != remote {
          return Err(UnobservedRemote);
        }
        if evidence.account != changed.account {
          return Err(DifferentAuthorization);
        }
        var error := RemoteError(changed.provider, remote);
        if error.Some? {
          return Err(UnsupportedRemote(error.value));
        }
        changed := changed.(remote := remote);
        retained := Everything;
      case Reauthorize(account, credential) =>
        if changed.visibility != Private {
          return Err(NotAuthorized);
        }
        var same := changed.account == Some(account);
        changed := changed.(account := Some(account), credential := Some(credential));
        retained := if same then Everything else IdentityOnly;
    }
    r := Ok(Transition(changed, retained));
  }

  /** What a record becomes, field by field. */
  function Becomes(record: Record, change: Change): Record {
    match change
    case Relabel(displayName) => record.(displayName := displayName)
    case TrackBranch(branch) => record.(branch := branch)
    case TrackNotesFolder(notesFolder) => record.(notesFolder := notesFolder)
    case Relocate(remote, _) => record.(remote := remote)
    case Reauthorize(account, credential) => record.(account := Some(account), credential := Some(credential))
  }

  /** What a source keeps follows from what changed: nothing of another account's,
      and no content of another branch or folder. */
  function Keeps(before: Record, after: Record): Retained {
    if before.account != after.account then IdentityOnly
    else if before.branch != after.branch || before.notesFolder != after.notesFolder then IdentityAndReadingState
    else Everything
  }

  /** The first ground a change is refused on. */
  function Refusal(record: Record, change: Change): Option<ChangeError> {
    match change
    case Relocate(remote, evidence) =>
      if record.repositoryId.None? then Some(UnprovableRepository)
      else if evidence.provider != record.provider then Some(DifferentProvider)
      else if Some(evidence.repository) != record.repositoryId then Some(DifferentRepository)
      else if evidence.remote != remote then Some(UnobservedRemote)
      else if evidence.account != record.account then Some(DifferentAuthorization)
      else
        var error := RemoteError(record.provider, remote);
        if error.None? then None else Some(UnsupportedRemote(error.value))
    case Reauthorize(_, _) => if record.visibility == Private then None else Some(NotAuthorized)
    case _ => None
  }

  function Applied(record: Record, change: Change): Result<Transition, ChangeError> {
    match Refusal(record, change)
    case Some(error) => Err(error)
    case None => Ok(Transition(Becomes(record, change), Keeps(record, Becomes(record, change))))
  }

  /** What each change that is accepted writes, and what it is entitled to keep: the
      field it names gets its argument, and every other field is as before. */
  lemma AcceptedChanges(record: Record, change: Change, after: Record, kept: Retained)
    requires Applied(record, change) == Ok(Transition(after, kept))
    ensures
      match change
      case Relabel(displayName) => after == record.(displayName := displayName) && kept == Everything
      case TrackBranch(branch) =>
        && after == record.(branch := branch)
        && kept == if branch == record.branch then Everything else IdentityAndReadingState
      case TrackNotesFolder(notesFolder) =>
        && after == record.(notesFolder := notesFolder)
        && kept == if notesFolder == record.notesFolder then Everything else IdentityAndReadingState
      case Relocate(remote, _) => after == record.(remote := remote) && kept == Everything
      case Reauthorize(account, credential) =>
        && after == record.(account := Some(account), credential := Some(credential))
        && kept == if record.account == Some(account) then Everything else IdentityOnly
  {
    hide RemoteError;
  }

  /** Which changes are refused, and on which ground first. */
  lemma RefusedChanges(record: Record, change: Change)
    ensures change.Relabel? || change.TrackBranch? || change.TrackNotesFolder? ==> Applied(record, change).Ok?
    ensures change.Reauthorize? ==>
      if record.visibility == Private then Applied(record, change).Ok?
      else Applied(record, change) == Err(NotAuthorized)
    ensures change.Relocate? ==>
      var r, known, given := Applied(record, change), record.repositoryId, change.evidence;
      var same := known.Some? && given.provider == record.provider && given.repository == known.value;
      var seen := same && given.remote == change.remote;
      && (r == Err(UnprovableRepository) <==> known.None?)
      && (r == Err(DifferentProvider) <==> known.Some? && given.provider != record.provider)
      && (r == Err(DifferentRepository) <==>
            known.Some? && given.provider == record.provider && given.repository != known.value)
      && (r == Err(UnobservedRemote) <==> same && given.remote != change.remote)
      && (r == Err(DifferentAuthorization) <==> seen && given.account != record.account)
      && (forall e :: r == Err(UnsupportedRemote(e)) <==>
            seen && given.account == record.account && RemoteError(record.provider, change.remote) == Some(e))
      && (r.Ok? <==> seen && given.account == record.account && RemoteError(record.provider, change.remote).None?)
  {
    hide RemoteError;
  }

  // ---- Histories ----

  /** The fields a change can write. */
  datatype Field = Label | Branch | Folder | Address | Account | Credential

  function Value(record: Record, field: Field): Option<string> {
    match field
    case Label => Some(record.displayName)
    case Branch => Some(record.branch)
    case Folder => Some(record.notesFolder)
    case Address => Some(record.remote)
    case Account => record.account
    case Credential => record.credential
  }

  /** What a change is asked to write to a field, if it is that field's. */
  function Argument(change: Change, field: Field): Option<string> {
    match (change, field)
    case (Relabel(displayName), Label) => Some(displayName)
    case (TrackBranch(branch), Branch) => Some(branch)
    case (TrackNotesFolder(notesFolder), Folder) => Some(notesFolder)
    case (Relocate(remote, _), Address) => Some(remote)
    case (Reauthorize(account, _), Account) => Some(account)
    case (Reauthorize(_, credential), Credential) => Some(credential)
    case _ => None
  }

  /** A record and the changes that were accepted on it, in order, with what each
      was entitled to keep. */
  ghost predicate IsHistory(records: seq<Record>, changes: seq<Change>, kept: seq<Retained>) {
    && |records| == |changes| + 1 == |kept| + 1
    && New(records[0]).Ok?
    && forall i :: 0 <= i < |changes| ==> Applied(records[i], changes[i]) == Ok(Transition(records[i + 1], kept[i]))
  }

  ghost predicate SameIdentity(a: Record, b: Record) {
    a.id == b.id && a.provider == b.provider && a.visibility == b.visibility && a.repositoryId == b.repositoryId
  }

  lemma StepKeeps(record: Record, change: Change)
    requires New(record).Ok? && Applied(record, change).Ok?
    ensures New(Becomes(record, change)) == Ok(Becomes(record, change))
    ensures SameIdentity(record, Becomes(record, change))
  {
    hide RemoteError;
  }

  /** Every record of a history would be accepted anew, as it stands, and is the
      same source. */
  lemma {:induction false} HistoryKeepsIdentity(records: seq<Record>, changes: seq<Change>, kept: seq<Retained>, n: nat)
    requires IsHistory(records, changes, kept) && n < |records|
    ensures New(records[n]) == Ok(records[n]) && SameIdentity(records[0], records[n])
  {
    hide New, Becomes, Keeps, Refusal, SameIdentity;
    if n == 0 {
      FirstIsAccepted(records[0]);
    } else {
      HistoryKeepsIdentity(records, changes, kept, n - 1);
      assert Applied(records[n - 1], changes[n - 1]) == Ok(Transition(records[n], kept[n - 1]));
      StepKeeps(records[n - 1], changes[n - 1]);
      SameIdentityIsTransitive(records[0], records[n - 1], records[n]);
    }
  }

  /** Over every history each field holds what the last accepted change to it asked
      for, or what the first record held where there was none. */
  lemma {:induction false} FieldHoldsLastWritten(records: seq<Record>, changes: seq<Change>, kept: seq<Retained>,
                                                 field: Field, last: int, n: nat)
    requires IsHistory(records, changes, kept) && -1 <= last < n < |records|
    requires last >= 0 ==> Argument(changes[last], field).Some?
    requires forall i :: last < i < n ==> Argument(changes[i], field).None?
    ensures Value(records[n], field) == if last >= 0 then Argument(changes[last], field) else Value(records[0], field)
  {
    hide Applied, New;
    if n > 0 {
      assert Applied(records[n - 1], changes[n - 1]) == Ok(Transition(records[n], kept[n - 1]));
      AcceptedChanges(records[n - 1], changes[n - 1], records[n], kept[n - 1]);
      if last < n - 1 {
        FieldHoldsLastWritten(records, changes, kept, field, last, n - 1);
      }
    }
  }

  lemma FirstIsAccepted(record: Record)
    requires New(record).Ok?
    ensures New(record) == Ok(record) && SameIdentity(record, record)
  {
  }

  lemma SameIdentityIsTransitive(a: Record, b: Record, c: Record)
    requires SameIdentity(a, b) && SameIdentity(b, c)
    ensures SameIdentity(a, c)
  {
  }

  /** What a step keeps says exactly what it changed. */
  lemma KeptSaysWhatChanged(records: seq<Record>, changes: seq<Change>, kept: seq<Retained>, i: nat)
    requires IsHistory(records, changes, kept) && i < |changes|
    ensures kept[i] == IdentityOnly <==> records[i].account != records[i + 1].account
    ensures kept[i] == IdentityAndReadingState <==>
      records[i].branch != records[i + 1].branch || records[i].notesFolder != records[i + 1].notesFolder
    ensures kept[i] == IdentityOnly ==> changes[i].Reauthorize?
  {
    assert Applied(records[i], changes[i]) == Ok(Transition(records[i + 1], kept[i]));
    hide RemoteError;
  }

  /** If every step kept everything, the branch, the folder and the account are
      still what they were. */
  lemma {:induction false} EverythingKeptIsUnmoved(records: seq<Record>, changes: seq<Change>, kept: seq<Retained>,
                                                   n: nat)
    requires IsHistory(records, changes, kept) && n < |records|
    requires forall i :: 0 <= i < n ==> kept[i] == Everything
    ensures records[n].branch == records[0].branch && records[n].notesFolder == records[0].notesFolder
    ensures records[n].account == records[0].account
  {
    hide IsHistory;
    if n > 0 {
      assert |records| == |changes| + 1 == |kept| + 1 by { HistoryShape(records, changes, kept); }
      EverythingKeptIsUnmoved(records, changes, kept, n - 1);
      KeptSaysWhatChanged(records, changes, kept, n - 1);
    }
  }

  lemma HistoryShape(records: seq<Record>, changes: seq<Change>, kept: seq<Retained>)
    requires IsHistory(records, changes, kept)
    ensures |records| == |changes| + 1 == |kept| + 1
  {
  }

  lemma RelocationNeedsIdentity(record: Record, change: Change)
    requires New(record).Ok? && Applied(record, change).Ok? && Becomes(record, change).remote != record.remote
    ensures record.provider == GitHub && record.repositoryId.Some?
  {
  }

  /** A source of a host without identities of its own is never moved to another
      repository: no history of one changes its remote. */
  lemma {:induction false} GenericRemoteIsFixed(records: seq<Record>, changes: seq<Change>, kept: seq<Retained>, n: nat)
    requires IsHistory(records, changes, kept) && n < |records| && records[0].provider == GenericHttps
    ensures records[n].remote == records[0].remote
  {
    hide New, Keeps, Refusal, Becomes;
    if n > 0 {
      GenericRemoteIsFixed(records, changes, kept, n - 1);
      HistoryKeepsIdentity(records, changes, kept, n - 1);
      assert Applied(records[n - 1], changes[n - 1]) == Ok(Transition(records[n], kept[n - 1]));
      if records[n].remote != records[n - 1].remote {
        RelocationNeedsIdentity(records[n - 1], changes[n - 1]);
      }
    }
  }

  /** What a configuration is accepted on. */
  lemma AcceptedExactlyWhen(c: Record)
    ensures New(c).Ok? <==>
      && RemoteError(c.provider, c.remote).None?
      && (c.account.Some? <==> c.visibility == Private) && (c.credential.Some? <==> c.visibility == Private)
      && (c.visibility == Private ==> c.provider == GitHub && c.repositoryId.Some?)
      && (c.provider == GenericHttps ==> c.repositoryId.None?)
    ensures New(c).Ok? ==> New(c).value == c
  {
    hide RemoteError;
  }

  /** The first ground a configuration is refused on. */
  lemma RefusedExactlyWhen(c: Record)
    ensures
      var r, open := New(c), RemoteError(c.provider, c.remote).None?;
      var secret := open && c.visibility == Private && c.provider == GitHub;
      var shown := open && c.visibility == Public;
      && (!open ==> r == Err(RemoteError(c.provider, c.remote).value))
      && (r == Err(UnsupportedPrivateProvider(c.provider)) <==>
            open && c.visibility == Private && c.provider == GenericHttps)
      && (r == Err(MissingRepositoryIdentity) <==> secret && c.repositoryId.None?)
      && (r == Err(MissingAccountIdentity) <==> secret && c.repositoryId.Some? && c.account.None?)
      && (r == Err(MissingCredentialReference) <==>
            secret && c.repositoryId.Some? && c.account.Some? && c.credential.None?)
      && (r == Err(UnexpectedAccountIdentity) <==> shown && c.account.Some?)
      && (r == Err(UnexpectedCredentialReference) <==> shown && c.account.None? && c.credential.Some?)
      && (r == Err(UnsupportedRepositoryId(c.provider)) <==>
            shown && c.account.None? && c.credential.None? && c.provider == GenericHttps && c.repositoryId.Some?)
  {
    RemoteGrounds(c.provider, c.remote);
    hide RemoteError;
  }

  /** Only a host with identities of its own judges a remote, and only by its
      authority and its path. */
  lemma RemoteGrounds(provider: Provider, remote: string)
    ensures RemoteError(GenericHttps, remote).None?
    ensures RemoteError(provider, remote).Some? ==>
      var error := RemoteError(provider, remote).value;
      error == UnsupportedAuthority(provider) || error == UnsupportedRepositoryPath(provider)
  {
    hide Host, Port, Path, Split, StripGit;
  }

  /** A private source always has an account and a credential to fetch with, and a
      public one never has either. */
  lemma AuthorizationFollowsVisibility(records: seq<Record>, changes: seq<Change>, kept: seq<Retained>, n: nat)
    requires IsHistory(records, changes, kept) && n < |records|
    ensures records[n].account.Some? <==> records[0].visibility == Private
    ensures records[n].credential.Some? <==> records[0].visibility == Private
  {
    hide IsHistory, RemoteError;
    HistoryKeepsIdentity(records, changes, kept, n);
  }

  // ---- Provider remotes ----

  lemma SplitInTwo(path: string)
    ensures |Split(path, '/')| == 2 <==>
      exists owner: string, repository: string ::
        path == owner + "/" + repository && '/' !in owner && '/' !in repository
    ensures |Split(path, '/')| == 2 ==>
      (path == Split(path, '/')[0] + "/" + Split(path, '/')[1]
       && '/' !in Split(path, '/')[0] && '/' !in Split(path, '/')[1])
  {
    var once := SplitOnce(path, '/');
    if |Split(path, '/')| == 2 {
      assert SplitOnce(once.value.1, '/').None?;
    }
    if owner: string, repository: string :| path == owner + "/" + repository && '/' !in owner && '/' !in repository {
      SplitAtFirst(owner, '/', repository);
    }
  }

  ghost predicate OwnerAndRepository(path: string) {
    exists owner: string, repository: string ::
      path == owner + "/" + repository && '/' !in owner && '/' !in repository && repository != ".git"
  }

  lemma RepositoryPaths(path: string)
    requires PathAdmitted(path)
    ensures
      var segments := Split(path, '/');
      OwnerAndRepository(path) <==> |segments| == 2 && StripGit(segments[1]) != []
    ensures Split(path, '/')[0] != []
  {
    hide SegmentAdmitted, StripGit, SplitOnce;
    var segments := Split(path, '/');
    SplitInTwo(path);
    assert segments[0] in segments && SegmentAdmitted(segments[0]);
    SegmentHasText(segments[0]);
    if |segments| == 2 {
      assert segments[1] in segments && SegmentAdmitted(segments[1]);
      SegmentHasText(segments[1]);
      StrippedIsEmpty(segments[1]);
      if owner: string, repository: string :|
        path == owner + "/" + repository && '/' !in owner && '/' !in repository && repository != ".git"
      {
        TwoSegments(owner, repository);
      }
    }
  }

  lemma SegmentHasText(segment: string)
    requires SegmentAdmitted(segment)
    ensures segment != []
  {
  }

  lemma TwoSegments(owner: string, repository: string)
    requires '/' !in owner && '/' !in repository
    ensures Split(owner + "/" + repository, '/') == [owner, repository]
  {
    SplitAtFirst(owner, '/', repository);
  }

  /** A GitHub source is reached at one owner's one repository, on the provider's
      own host and the default port. */
  lemma GitHubRemotes(r: Remote)
    requires r.Valid()
    ensures RemoteError(GitHub, r.Print()).None? <==>
      r.host == GITHUB_AUTHORITY && r.port.None? && OwnerAndRepository(r.path)
    ensures RemoteError(GitHub, r.Print()) == Some(UnsupportedAuthority(GitHub)) <==>
      !(r.host == "github.com" && r.port.None?)
  {
    hide HostAdmitted, PathAdmitted, Host, Port, Path, PortText, OwnerAndRepository, Split, StripGit;
    AccessorsRecover(r);
    RepositoryPaths(r.path);
    assert ("/" + r.path)[1..] == r.path;
    assert StripGit([]) == [] by {
      StrippedIsEmpty([]);
    }
  }

  lemma StrippedIsEmpty(repository: string)
    ensures StripGit(repository) == [] <==> repository == [] || repository == ".git"
  {
  }
}
