/**
 * `delete_files_tool`: files are deleted only with a fresh token minted for the same
 * repository, the same branch and the same set of paths; then each path is deleted
 * in turn and every deletion reports on its own.
 */
module DeleteFiles {
  import opened Wrappers
  import opened Text
  import opened ConfirmationToken
  import opened Access
  import opened Outcomes

  /** The default of the `branch` argument. */
  const DefaultBranch := "main"
  /** The separator of the path list inside the token. */
  const PathSeparator := ','

  /** The branch as the f-string writes it: an explicit `None` becomes the text `None`. */
  function BranchText(branch: Option<string>): string {
    if branch.Some? then branch.value else "None"
  }

  function BranchValue(branch: Option<string>): Value {
    if branch.Some? then Str(branch.value) else Null
  }

  /** `set(paths)`. */
  function Elements(paths: seq<string>): set<string> {
    set p | p in paths
  }

  /** The items of Python's `str(list)` for a list of strings, quote escaping aside. */
  function Items(paths: seq<string>): string
    decreases |paths|
  {
    if |paths| == 0 then ""
    else if |paths| == 1 then "'" + paths[0] + "'"
    else "'" + paths[0] + "', " + Items(paths[1..])
  }

  const PromptHead := "Confirmation required to delete files at '["

  function Prompt(paths: seq<string>, branch: Option<string>): string {
    PromptHead + Items(paths) + "]' on branch '" + BranchText(branch) + "'. " + ConfirmHint
  }

  /** The token fields `paths:repo:branch`, the paths joined by commas. */
  function Fields(paths: seq<string>, repo: string, branch: Option<string>): seq<string> {
    [Join(paths, PathSeparator), repo, BranchText(branch)]
  }

  function FileParams(paths: seq<string>, repo: string, branch: Value): Params {
    [("file_paths", Strs(paths)), ("repo", Str(repo)), ("branch", branch)]
  }

  /** What an authorised request deletes: these paths, in the request's order, on this branch. */
  datatype FileTarget = FileTarget(repo: string, branch: string, paths: seq<string>)

  /**
   * The confirmation gate. After decoding the four fields and checking expiry, the
   * repository, then the branch, then the set of listed paths are compared with
   * the request; order and repetition of the paths do not matter.
   */
  function FilesGate(session: Session, paths: seq<string>, repo: Option<string>, branch: Option<string>,
                     token: Option<string>, now: int): (r: Outcome<FileTarget>)
    ensures !session.authenticated ==> r.Denied?
    ensures session.authenticated && ResolveRepo(repo, session.repo).None? ==> r == MissingRepo
    ensures r.AwaitingConfirmation? <==> session.authenticated && ResolveRepo(repo, session.repo).Some? && !Supplied(token)
  {
    match CheckAccess(session)
    case Some(denial) => Denied(denial)
    case None =>
      match ResolveRepo(repo, session.repo)
      case None => MissingRepo
      case Some(target) =>
        if !Supplied(token) then AwaitingConfirmation(Prompt(paths, branch), Mint(Fields(paths, target, branch), now))
        else
          match Check(token.value, now, 4)
          case Malformed => InvalidToken
          case Stale => Expired
          case Fresh(fields) => Compare(fields, paths, target, branch)
  }

  /** The comparison of a fresh token's fields with the request: repository, then branch, then the set of paths. */
  function Compare(fields: seq<string>, paths: seq<string>, target: string, branch: Option<string>): (r: Outcome<FileTarget>)
    requires |fields| == 3
    ensures r.Authorized? || r.Mismatch?
    ensures r.Authorized? <==>
              fields[1] == target && Some(fields[2]) == branch && Elements(Split(fields[0], PathSeparator)) == Elements(paths)
    ensures r.Authorized? ==> r.effect == FileTarget(target, fields[2], paths)
  {
    var listed := Split(fields[0], PathSeparator);
    if fields[1] != target || Some(fields[2]) != branch || Elements(listed) != Elements(paths) then
      Mismatch(FileParams(listed, fields[1], Str(fields[2])), FileParams(paths, target, BranchValue(branch)))
    else
      Authorized(FileTarget(target, fields[2], paths))
  }

  /**
   * Files are deleted only for an authenticated caller presenting a readable,
   * unexpired token that names the resolved repository, the requested branch and
   * the requested set of paths; what is deleted is the request's own path list.
   */
  lemma AuthorizedOnlyWithFreshToken(session: Session, paths: seq<string>, repo: Option<string>, branch: Option<string>,
                                     token: Option<string>, now: int)
    ensures var r := FilesGate(session, paths, repo, branch, token, now);
            r.Authorized? ==>
              && session.authenticated
              && Supplied(token)
              && var target := ResolveRepo(repo, session.repo);
              && target.Some?
              && branch.Some?
              && var read := Open(token.value, 4);
              && read.Some?
              && read.value.fields[1] == target.value
              && read.value.fields[2] == branch.value
              && Elements(Split(read.value.fields[0], PathSeparator)) == Elements(paths)
              && !IsExpired(now, read.value.issuedAt)
              && r.effect == FileTarget(target.value, branch.value, paths)
  {
  }

  /** The remote's answer to the contents lookup before a deletion: the file's blob SHA, or a request exception. */
  datatype Lookup = Found(sha: string) | LookupFailed(reason: string)

  /** The DELETE of one file, with its commit message, the looked-up SHA and the branch. */
  datatype FileDeletion = FileDeletion(repo: string, path: string, branch: string, sha: string, message: string)

  /** One entry of `responses`. */
  datatype FileResponse = FileDeleted(filePath: string) | FileFailed(filePath: string, error: string)

  const FileDeletedMessage := "File deleted successfully."

  function Deletion(target: FileTarget, path: string, sha: string): FileDeletion {
    FileDeletion(target.repo, path, target.branch, sha, "Delete " + path)
  }

  /**
   * The SHA lookup of the remote: `lookup(repo, path, branch, deleted)` answers for
   * the repository as it stands once the paths in `deleted` have been deleted by
   * this request, so a repeated path may see the effect of its earlier deletion.
   */
  type Lookups = (string, string, string, set<string>) -> Lookup

  /**
   * The entry for one path, after the paths in `deleted` are gone: the SHA is
   * looked up on the branch, then the file is deleted with it; a failure of either
   * request is reported with its text.
   */
  function FileOutcome(target: FileTarget, path: string, deleted: set<string>, lookup: Lookups,
                       remove: FileDeletion -> Reply): (r: FileResponse)
    ensures r.filePath == path
    ensures var found := lookup(target.repo, path, target.branch, deleted);
            && (r.FileDeleted? <==> found.Found? && remove(Deletion(target, path, found.sha)) == Completed)
            && (found.LookupFailed? ==> r == FileFailed(path, RequestFailed(found.reason)))
            && (found.Found? && remove(Deletion(target, path, found.sha)).Raised? ==>
                  r == FileFailed(path, RequestFailed(remove(Deletion(target, path, found.sha)).reason)))
  {
    match lookup(target.repo, path, target.branch, deleted)
    case LookupFailed(reason) => FileFailed(path, RequestFailed(reason))
    case Found(sha) =>
      match remove(Deletion(target, path, sha))
      case Completed => FileDeleted(path)
      case Raised(reason) => FileFailed(path, RequestFailed(reason))
  }

  /** The paths deleted after the loop has handled `done`, in order: those whose entry reports deletion. */
  function Removed(target: FileTarget, done: seq<string>, lookup: Lookups, remove: FileDeletion -> Reply): (gone: set<string>)
    ensures forall p :: p in gone ==> p in done
    decreases |done|
  {
    if |done| == 0 then {}
    else
      var prior := Removed(target, done[..|done| - 1], lookup, remove);
      var path := done[|done| - 1];
      prior + if FileOutcome(target, path, prior, lookup, remove).FileDeleted? then {path} else {}
  }

  /** The entry of the `i`-th path, after the paths before it were handled. */
  function Entry(target: FileTarget, i: nat, lookup: Lookups, remove: FileDeletion -> Reply): FileResponse
    requires i < |target.paths|
  {
    FileOutcome(target, target.paths[i], Removed(target, target.paths[..i], lookup, remove), lookup, remove)
  }

  /**
   * The loop over the paths: one entry per path, in order; the entry of each path
   * is taken once the earlier paths' deletions have happened.
   */
  method DeleteEach(target: FileTarget, lookup: Lookups, remove: FileDeletion -> Reply)
    returns (responses: seq<FileResponse>)
    ensures |responses| == |target.paths|
    ensures forall i :: 0 <= i < |target.paths| ==> responses[i] == Entry(target, i, lookup, remove)
  {
    responses := [];
    var deleted: set<string> := {};
    for i := 0 to |target.paths|
      invariant |responses| == i
      invariant deleted == Removed(target, target.paths[..i], lookup, remove)
      invariant forall j :: 0 <= j < i ==> responses[j] == Entry(target, j, lookup, remove)
    {
      var path := target.paths[i];
      var entry := FileOutcome(target, path, deleted, lookup, remove);
      responses := responses + [entry];
      if entry.FileDeleted? {
        deleted := deleted + {path};
      }
      assert target.paths[..i + 1][..i] == target.paths[..i];
    }
  }

  /** The tool: a refusal of the gate is the answer; otherwise the answer is the list of per-file entries. */
  method DeleteFilesTool(session: Session, paths: seq<string>, repo: Option<string>, branch: Option<string>,
                         token: Option<string>, now: int, lookup: Lookups, remove: FileDeletion -> Reply)
    returns (r: Outcome<seq<FileResponse>>)
    ensures var gate := FilesGate(session, paths, repo, branch, token, now);
            && (!gate.Authorized? ==> r == gate.Refused())
            && (gate.Authorized? ==>
                  && gate.effect.paths == paths
                  && r.Authorized?
                  && |r.effect| == |paths|
                  && forall i :: 0 <= i < |paths| ==> r.effect[i] == Entry(gate.effect, i, lookup, remove))
  {
    var gate := FilesGate(session, paths, repo, branch, token, now);
    if !gate.Authorized? {
      r := gate.Refused();
    } else {
      AuthorizedOnlyWithFreshToken(session, paths, repo, branch, token, now);
      var responses := DeleteEach(gate.effect, lookup, remove);
      r := Authorized(responses);
    }
  }

  /** The remote no longer finds a file once this request has deleted it. */
  ghost predicate GoneOnceDeleted(target: FileTarget, lookup: Lookups) {
    forall path, deleted :: path in deleted ==> lookup(target.repo, path, target.branch, deleted).LookupFailed?
  }

  /** The deletions only grow as the loop goes on. */
  lemma {:induction false} RemovedGrows(target: FileTarget, lookup: Lookups, remove: FileDeletion -> Reply, j: nat, i: nat)
    requires j <= i <= |target.paths|
    ensures Removed(target, target.paths[..j], lookup, remove) <= Removed(target, target.paths[..i], lookup, remove)
    decreases i - j
  {
    if j < i {
      RemovedGrows(target, lookup, remove, j, i - 1);
      assert target.paths[..i][..i - 1] == target.paths[..i - 1];
    }
  }

  /**
   * A path listed twice is deleted at most once: once an earlier entry of the same
   * path reports deletion, the later lookup fails and the later entry reports the
   * failure.
   */
  lemma RepeatedPathFails(target: FileTarget, lookup: Lookups, remove: FileDeletion -> Reply, j: nat, i: nat)
    requires j < i < |target.paths| && target.paths[j] == target.paths[i]
    requires GoneOnceDeleted(target, lookup)
    requires Entry(target, j, lookup, remove).FileDeleted?
    ensures Entry(target, i, lookup, remove).FileFailed?
    ensures var found := lookup(target.repo, target.paths[i], target.branch, Removed(target, target.paths[..i], lookup, remove));
            && found.LookupFailed?
            && Entry(target, i, lookup, remove) == FileFailed(target.paths[i], RequestFailed(found.reason))
  {
    var path := target.paths[j];
    assert target.paths[..j + 1][..j] == target.paths[..j];
    assert target.paths[..j + 1][j] == path;
    assert path in Removed(target, target.paths[..j + 1], lookup, remove);
    RemovedGrows(target, lookup, remove, j + 1, i);
  }

  /** The paths can be written into a token and read back as the same set: at least one, none with a comma. */
  predicate Listable(paths: seq<string>) {
    |paths| >= 1 && forall i :: 0 <= i < |paths| ==> PathSeparator !in paths[i]
  }

  /** No field of the minted token contains `:`; otherwise it does not split into four. */
  predicate Readable(paths: seq<string>, repo: string, branch: Option<string>) {
    && (forall i :: 0 <= i < |paths| ==> Delimiter !in paths[i])
    && Delimiter !in repo
    && Delimiter !in BranchText(branch)
  }

  lemma ReadableFields(paths: seq<string>, repo: string, branch: Option<string>)
    ensures DelimiterFree(Fields(paths, repo, branch)) <==> Readable(paths, repo, branch)
  {
    var fields := Fields(paths, repo, branch);
    JoinContains(paths, PathSeparator, Delimiter);
    assert fields[0] == Join(paths, PathSeparator) && fields[1] == repo && fields[2] == BranchText(branch);
    assert DelimiterFree(fields) <==> Delimiter !in fields[0] && Delimiter !in fields[1] && Delimiter !in fields[2];
  }

  /**
   * The paths read back from a token minted for `paths` form the same set exactly
   * when the list is nonempty and no path contains a comma.
   */
  lemma ListedSetRoundTrip(paths: seq<string>)
    ensures Elements(Split(Join(paths, PathSeparator), PathSeparator)) == Elements(paths) <==> Listable(paths)
  {
    var listed := Split(Join(paths, PathSeparator), PathSeparator);
    if Listable(paths) {
      SplitJoin(paths, PathSeparator);
    } else if |paths| == 0 {
      assert listed[0] in Elements(listed);
    } else {
      var k :| 0 <= k < |paths| && PathSeparator in paths[k];
      assert paths[k] in Elements(paths);
      assert paths[k] !in Elements(listed);
    }
  }

  /** Whatever the token, an empty path list is never authorised: the listed set of any token has an element. */
  lemma EmptyListRefused(session: Session, repo: Option<string>, branch: Option<string>, token: Option<string>,
                         now: int)
    ensures !FilesGate(session, [], repo, branch, token, now).Authorized?
  {
    forall s: string ensures Elements(Split(s, PathSeparator)) != {} {
      ListedNonempty(s);
    }
  }

  lemma ListedNonempty(s: string)
    ensures Elements(Split(s, PathSeparator)) != {}
  {
    assert Split(s, PathSeparator)[0] in Elements(Split(s, PathSeparator));
  }

  lemma CommaNotListed(s: string, p: string)
    requires PathSeparator in p
    ensures p !in Elements(Split(s, PathSeparator))
  {
  }

  /** Whatever the token, a request naming a path with a comma is never authorised. */
  lemma CommaPathRefused(session: Session, paths: seq<string>, repo: Option<string>, branch: Option<string>,
                         token: Option<string>, now: int, k: nat)
    requires k < |paths| && PathSeparator in paths[k]
    ensures !FilesGate(session, paths, repo, branch, token, now).Authorized?
  {
    assert paths[k] in Elements(paths);
    forall s: string ensures paths[k] !in Elements(Split(s, PathSeparator)) {
      CommaNotListed(s, paths[k]);
    }
  }

  /** Whatever the token, an explicit `None` branch is never authorised: the token's branch is text. */
  lemma MissingBranchRefused(session: Session, paths: seq<string>, repo: Option<string>, token: Option<string>,
                             now: int)
    ensures !FilesGate(session, paths, repo, None, token, now).Authorized?
  {
  }

  /** The authentication check comes before everything else. */
  lemma DeniedFirst(session: Session, paths: seq<string>, repo: Option<string>, branch: Option<string>,
                    token: Option<string>, now: int)
    requires !session.authenticated
    ensures FilesGate(session, paths, repo, branch, token, now)
         == Denied(Denial(session.errorMessage.GetOr(NotAuthenticated)))
  {
  }

  /** Without a repository argument or header, the answer is the missing-repo error, whatever the token. */
  lemma MissingRepoSecond(session: Session, paths: seq<string>, repo: Option<string>, branch: Option<string>,
                          token: Option<string>, now: int)
    requires session.authenticated && !Truthy(repo) && !Truthy(session.repo)
    ensures FilesGate(session, paths, repo, branch, token, now) == MissingRepo
  {
  }

  /**
   * Without a token a token for `paths:repo:branch:now` is minted and nothing is
   * deleted; when it is readable it reads back as those four values.
   */
  lemma MintWithoutToken(session: Session, paths: seq<string>, repo: Option<string>, branch: Option<string>,
                         token: Option<string>, now: int)
    requires session.authenticated && ResolveRepo(repo, session.repo).Some?
    requires !Supplied(token)
    ensures var target := ResolveRepo(repo, session.repo).value;
            var r := FilesGate(session, paths, repo, branch, token, now);
            && r == AwaitingConfirmation(Prompt(paths, branch), Mint(Fields(paths, target, branch), now))
            && r.Action() == Some(ConfirmAction)
            && (Readable(paths, target, branch) ==> Open(r.token, 4) == Some(Opened(Fields(paths, target, branch), now)))
  {
    var target := ResolveRepo(repo, session.repo).value;
    ReadableFields(paths, target, branch);
    OpenMint(Fields(paths, target, branch), now);
  }

  /** The verdict on a token minted for a request, replayed with the same request at `now`. */
  function Replayed(paths: seq<string>, target: string, branch: Option<string>, t: int, now: int): Outcome<FileTarget> {
    if !Readable(paths, target, branch) then InvalidToken
    else if now - t > ValidityDuration then Expired
    else if Listable(paths) && branch.Some? then Authorized(FileTarget(target, branch.value, paths))
    else Mismatch(FileParams(Split(Join(paths, PathSeparator), PathSeparator), target, Str(BranchText(branch))),
                  FileParams(paths, target, BranchValue(branch)))
  }

  /**
   * Minting at `t` and confirming the same request at `now`: a `:` in any field
   * makes the token unreadable; a late token is expired; otherwise the files are
   * deleted exactly when the path list is nonempty, comma-free and the branch is given.
   */
  lemma ConfirmRoundTrip(session: Session, paths: seq<string>, repo: Option<string>, branch: Option<string>,
                         t: int, now: int)
    requires session.authenticated && ResolveRepo(repo, session.repo).Some?
    ensures var target := ResolveRepo(repo, session.repo).value;
            var minted := FilesGate(session, paths, repo, branch, None, t);
            && minted.AwaitingConfirmation?
            && FilesGate(session, paths, repo, branch, Some(minted.token), now) == Replayed(paths, target, branch, t, now)
  {
    Replay(session, paths, paths, repo, branch, t, now);
    CompareMinted(paths, ResolveRepo(repo, session.repo).value, branch, paths);
    ListedSetRoundTrip(paths);
  }

  /**
   * A token minted for `paths` and shown with a request for `asked`: unreadable if a
   * minted field has a `:`, expired after the window, otherwise the comparison of
   * the minted fields with the request.
   */
  lemma Replay(session: Session, paths: seq<string>, asked: seq<string>, repo: Option<string>, branch: Option<string>,
               t: int, now: int)
    requires session.authenticated && ResolveRepo(repo, session.repo).Some?
    ensures var target := ResolveRepo(repo, session.repo).value;
            var minted := FilesGate(session, paths, repo, branch, None, t);
            && minted.AwaitingConfirmation?
            && FilesGate(session, asked, repo, branch, Some(minted.token), now)
               == if !Readable(paths, target, branch) then InvalidToken
                  else if IsExpired(now, t) then Expired
                  else Compare(Fields(paths, target, branch), asked, target, branch)
  {
    var target := ResolveRepo(repo, session.repo).value;
    var token := Mint(Fields(paths, target, branch), t);
    assert FilesGate(session, paths, repo, branch, None, t) == AwaitingConfirmation(Prompt(paths, branch), token);
    MintedVerdict(paths, target, branch, t, now);
  }

  /** The verdict on a token minted for a request. */
  lemma MintedVerdict(paths: seq<string>, target: string, branch: Option<string>, t: int, now: int)
    ensures var fields := Fields(paths, target, branch);
            Check(Mint(fields, t), now, 4)
              == if !Readable(paths, target, branch) then Malformed
                 else if IsExpired(now, t) then Stale
                 else Fresh(fields)
  {
    ReadableFields(paths, target, branch);
    CheckMint(Fields(paths, target, branch), t, now);
  }

  /**
   * The paths are compared as sets: a token minted for one list confirms any
   * reordering or repetition of it, and the request's own list is what is deleted.
   */
  lemma PathOrderIgnored(session: Session, minted: seq<string>, asked: seq<string>, repo: Option<string>,
                         branch: string, t: int, now: int)
    requires session.authenticated && ResolveRepo(repo, session.repo).Some?
    requires Listable(minted) && Readable(minted, ResolveRepo(repo, session.repo).value, Some(branch))
    requires Elements(minted) == Elements(asked) && now - t <= ValidityDuration
    ensures var first := FilesGate(session, minted, repo, Some(branch), None, t);
            && first.AwaitingConfirmation?
            && FilesGate(session, asked, repo, Some(branch), Some(first.token), now)
               == Authorized(FileTarget(ResolveRepo(repo, session.repo).value, branch, asked))
  {
    Replay(session, minted, asked, repo, Some(branch), t, now);
    CompareMinted(minted, ResolveRepo(repo, session.repo).value, Some(branch), asked);
    ListedSetRoundTrip(minted);
  }

  /**
   * The fields of a token minted for `paths` compared with a request for `asked`:
   * accepted exactly when the comma-split token list has the same set as `asked`
   * and the branch is given.
   */
  lemma CompareMinted(paths: seq<string>, target: string, branch: Option<string>, asked: seq<string>)
    ensures var listed := Split(Join(paths, PathSeparator), PathSeparator);
            Compare(Fields(paths, target, branch), asked, target, branch)
              == if Elements(listed) == Elements(asked) && branch.Some?
                 then Authorized(FileTarget(target, branch.value, asked))
                 else Mismatch(FileParams(listed, target, Str(BranchText(branch))),
                               FileParams(asked, target, BranchValue(branch)))
  {
    var fields := Fields(paths, target, branch);
    assert fields[0] == Join(paths, PathSeparator) && fields[1] == target && fields[2] == BranchText(branch);
  }

  /**
   * The path list is bound to the token only up to its comma-split set: a token
   * minted for the single path `a,b` (never confirmable itself) confirms a request
   * to delete the two files `a` and `b`.
   */
  lemma CommaPathAliasing(session: Session, repo: Option<string>, branch: string, t: int, now: int)
    requires session.authenticated && ResolveRepo(repo, session.repo).Some?
    requires Delimiter !in ResolveRepo(repo, session.repo).value && Delimiter !in branch
    requires now - t <= ValidityDuration
    ensures var first := FilesGate(session, ["a,b"], repo, Some(branch), None, t);
            && first.AwaitingConfirmation?
            && FilesGate(session, ["a", "b"], repo, Some(branch), Some(first.token), now)
               == Authorized(FileTarget(ResolveRepo(repo, session.repo).value, branch, ["a", "b"]))
  {
    var target := ResolveRepo(repo, session.repo).value;
    assert Readable(["a,b"], target, Some(branch)) by {
      assert ["a,b"][0] == "a,b";
    }
    Replay(session, ["a,b"], ["a", "b"], repo, Some(branch), t, now);
    CompareMinted(["a,b"], target, Some(branch), ["a", "b"]);
    CommaPairSplit();
  }

  lemma CommaPairSplit()
    ensures Split(Join(["a,b"], PathSeparator), PathSeparator) == ["a", "b"]
  {
    assert Join(["a,b"], PathSeparator) == "a,b";
    SplitJoin(["a", "b"], PathSeparator);
    assert Join(["a", "b"], PathSeparator) == "a,b" by {
      assert Join(["a", "b"][1..], PathSeparator) == "b";
    }
  }

  /** Expiry is checked before any field is compared. */
  lemma ExpiredBeforeMismatch(session: Session, paths: seq<string>, repo: Option<string>, branch: Option<string>,
                              token: string, now: int)
    requires session.authenticated && ResolveRepo(repo, session.repo).Some? && token != ""
    requires Open(token, 4).Some? && IsExpired(now, Open(token, 4).value.issuedAt)
    ensures FilesGate(session, paths, repo, branch, Some(token), now) == Expired
  {
  }

  /** A token that does not decode, split into four fields or end in an integer is invalid. */
  lemma UnreadableToken(session: Session, paths: seq<string>, repo: Option<string>, branch: Option<string>,
                        token: string, now: int)
    requires session.authenticated && ResolveRepo(repo, session.repo).Some? && token != ""
    requires Open(token, 4).None?
    ensures FilesGate(session, paths, repo, branch, Some(token), now) == InvalidToken
  {
  }

  /**
   * The delete-files scenario: one file, the default branch; asking and then
   * confirming with the returned token deletes that file and reports it deleted.
   */
  lemma SingleFileScenario(session: Session, repo: string, path: string, t: int,
                           lookup: Lookups, remove: FileDeletion -> Reply)
    requires session.authenticated && repo != "" && Delimiter !in repo
    requires PathSeparator !in path && Delimiter !in path
    requires lookup(repo, path, DefaultBranch, {}).Found?
    requires remove(Deletion(FileTarget(repo, DefaultBranch, [path]), path, lookup(repo, path, DefaultBranch, {}).sha)) == Completed
    ensures var asked := FilesGate(session, [path], Some(repo), Some(DefaultBranch), None, t);
            && asked.AwaitingConfirmation?
            && var confirmed := FilesGate(session, [path], Some(repo), Some(DefaultBranch), Some(asked.token), t);
            && confirmed == Authorized(FileTarget(repo, DefaultBranch, [path]))
            && Entry(confirmed.effect, 0, lookup, remove) == FileDeleted(path)
  {
    assert Readable([path], repo, Some(DefaultBranch)) by {
      assert [path][0] == path;
    }
    ConfirmRoundTrip(session, [path], Some(repo), Some(DefaultBranch), t, t);
  }
}
