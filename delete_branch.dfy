/** `delete_branch_tool`: a branch is deleted only with a fresh token minted for the same branch and repository. */
module DeleteBranch {
  import opened Wrappers
  import opened Text
  import opened ConfirmationToken
  import opened Access
  import opened Outcomes

  const PromptHead := "Confirmation required to delete branch '"

  function Prompt(branch: string): string {
    PromptHead + branch + "'. " + ConfirmHint
  }

  function BranchParams(branch: string, repo: string): Params {
    [("branch", Str(branch)), ("repo", Str(repo))]
  }

  /** The answer after the remote delete. */
  function Report(branch: string, reply: Reply): Response {
    match reply
    case Completed => Message("Branch '" + branch + "' deleted successfully.")
    case Raised(reason) => Error(RequestFailed(reason))
  }

  /**
   * The tool. The token is `branch:repo:ts`; it is decoded into exactly three
   * fields, checked for expiry, then compared with the request, and only then is
   * the branch deleted through `remote`.
   */
  function DeleteBranchTool(session: Session, branch: string, repo: Option<string>, token: Option<string>,
                            now: int, remote: Mutation -> Reply): (r: Outcome<Dispatch>)
    ensures r.Authorized? ==>
      && session.authenticated
      && Supplied(token)
      && var target := ResolveRepo(repo, session.repo);
      && target.Some?
      && var read := Open(token.value, 3);
      && read.Some?
      && read.value.fields == [branch, target.value]
      && !IsExpired(now, read.value.issuedAt)
      && r.effect.call == DeleteRef(target.value, branch)
  {
    match CheckAccess(session)
    case Some(denial) => Denied(denial)
    case None =>
      match ResolveRepo(repo, session.repo)
      case None => MissingRepo
      case Some(target) =>
        if !Supplied(token) then AwaitingConfirmation(Prompt(branch), Mint([branch, target], now))
        else
          match Check(token.value, now, 3)
          case Malformed => InvalidToken
          case Stale => Expired
          case Fresh(fields) =>
            if fields[1] != target || fields[0] != branch then
              Mismatch(BranchParams(fields[0], fields[1]), BranchParams(branch, target))
            else
              var call := DeleteRef(target, branch);
              Authorized(Dispatch(call, Report(branch, remote(call))))
  }

  /** The authentication check comes before everything else. */
  lemma DeniedFirst(session: Session, branch: string, repo: Option<string>, token: Option<string>,
                    now: int, remote: Mutation -> Reply)
    requires !session.authenticated
    ensures DeleteBranchTool(session, branch, repo, token, now, remote)
         == Denied(Denial(session.errorMessage.GetOr(NotAuthenticated)))
  {
  }

  /** Without a repository argument or header, the answer is the missing-repo error, whatever the token. */
  lemma MissingRepoSecond(session: Session, branch: string, repo: Option<string>, token: Option<string>,
                          now: int, remote: Mutation -> Reply)
    requires session.authenticated && !Truthy(repo) && !Truthy(session.repo)
    ensures DeleteBranchTool(session, branch, repo, token, now, remote) == MissingRepo
  {
  }

  /**
   * Without a token (or with an empty one) a token for `branch:repo:now` is minted,
   * the answer asks for confirmation and nothing is deleted; when neither field
   * contains `:`, the token reads back as exactly those fields and time.
   */
  lemma MintWithoutToken(session: Session, branch: string, repo: Option<string>, token: Option<string>,
                         now: int, remote: Mutation -> Reply)
    requires session.authenticated && ResolveRepo(repo, session.repo).Some?
    requires !Supplied(token)
    ensures var target := ResolveRepo(repo, session.repo).value;
            var r := DeleteBranchTool(session, branch, repo, token, now, remote);
            && r == AwaitingConfirmation(Prompt(branch), Mint([branch, target], now))
            && r.Action() == Some(ConfirmAction)
            && (DelimiterFree([branch, target]) ==> Open(r.token, 3) == Some(Opened([branch, target], now)))
  {
    OpenMint([branch, ResolveRepo(repo, session.repo).value], now);
  }

  /**
   * Minting at `t` and confirming the same request at `now`: the branch is deleted
   * exactly when neither field contains `:` and at most 300 seconds have passed;
   * a `:` makes the token unreadable, and a late confirmation is expired.
   */
  lemma ConfirmRoundTrip(session: Session, branch: string, repo: Option<string>, t: int, now: int,
                         remote: Mutation -> Reply)
    requires session.authenticated && ResolveRepo(repo, session.repo).Some?
    ensures var target := ResolveRepo(repo, session.repo).value;
            var minted := DeleteBranchTool(session, branch, repo, None, t, remote);
            && minted.AwaitingConfirmation?
            && var confirmed := DeleteBranchTool(session, branch, repo, Some(minted.token), now, remote);
            && var call := DeleteRef(target, branch);
            confirmed == if Delimiter in branch || Delimiter in target then InvalidToken
                         else if now - t > ValidityDuration then Expired
                         else Authorized(Dispatch(call, Report(branch, remote(call))))
  {
    var target := ResolveRepo(repo, session.repo).value;
    var token := Mint([branch, target], t);
    assert DeleteBranchTool(session, branch, repo, None, t, remote) == AwaitingConfirmation(Prompt(branch), token);
    MintedVerdict(branch, target, t, now);
    JudgedByVerdict(session, branch, repo, token, now, remote);
  }

  /**
   * Past authentication and repository resolution, a supplied token counts only
   * through its verdict: unreadable is invalid, stale is expired, and fresh fields
   * are compared with the request.
   */
  lemma JudgedByVerdict(session: Session, branch: string, repo: Option<string>, token: string, now: int,
                        remote: Mutation -> Reply)
    requires session.authenticated && ResolveRepo(repo, session.repo).Some? && token != ""
    ensures var target := ResolveRepo(repo, session.repo).value;
            var v := Check(token, now, 3);
            var r := DeleteBranchTool(session, branch, repo, Some(token), now, remote);
            && (v == Malformed ==> r == InvalidToken)
            && (v == Stale ==> r == Expired)
            && (v == Fresh([branch, target]) ==>
                  r == Authorized(Dispatch(DeleteRef(target, branch), Report(branch, remote(DeleteRef(target, branch))))))
            && (v.Fresh? && v.fields != [branch, target] ==>
                  r == Mismatch(BranchParams(v.fields[0], v.fields[1]), BranchParams(branch, target)))
  {
    var v := Check(token, now, 3);
    if v.Fresh? {
      assert v.fields == [v.fields[0], v.fields[1]];
    }
  }

  /** The verdict on a token minted for a branch and a repository. */
  lemma MintedVerdict(branch: string, target: string, t: int, now: int)
    ensures Check(Mint([branch, target], t), now, 3)
         == if Delimiter in branch || Delimiter in target then Malformed
            else if IsExpired(now, t) then Stale
            else Fresh([branch, target])
  {
    var fields := [branch, target];
    CheckMint(fields, t, now);
    assert fields[0] == branch && fields[1] == target;
    assert DelimiterFree(fields) <==> Delimiter !in branch && Delimiter !in target;
  }


  /** Expiry is checked before the fields are compared: any readable token older than 300 seconds is expired. */
  lemma ExpiredBeforeMismatch(session: Session, branch: string, repo: Option<string>, token: string,
                              now: int, remote: Mutation -> Reply)
    requires session.authenticated && ResolveRepo(repo, session.repo).Some? && token != ""
    requires Open(token, 3).Some? && IsExpired(now, Open(token, 3).value.issuedAt)
    ensures DeleteBranchTool(session, branch, repo, Some(token), now, remote) == Expired
  {
  }

  /**
   * A readable, unexpired token whose branch or repository differs from the request
   * is refused with both parameter sets in the details.
   */
  lemma MismatchDetails(session: Session, branch: string, repo: Option<string>, token: string,
                        now: int, remote: Mutation -> Reply)
    requires session.authenticated && ResolveRepo(repo, session.repo).Some? && token != ""
    requires Open(token, 3).Some? && !IsExpired(now, Open(token, 3).value.issuedAt)
    requires Open(token, 3).value.fields != [branch, ResolveRepo(repo, session.repo).value]
    ensures var f := Open(token, 3).value.fields;
            DeleteBranchTool(session, branch, repo, Some(token), now, remote)
              == Mismatch(BranchParams(f[0], f[1]), BranchParams(branch, ResolveRepo(repo, session.repo).value))
  {
    var f := Open(token, 3).value.fields;
    assert f == [f[0], f[1]];
  }

  /** A token that does not decode, split into three fields or end in an integer is invalid. */
  lemma UnreadableToken(session: Session, branch: string, repo: Option<string>, token: string,
                        now: int, remote: Mutation -> Reply)
    requires session.authenticated && ResolveRepo(repo, session.repo).Some? && token != ""
    requires Open(token, 3).None?
    ensures DeleteBranchTool(session, branch, repo, Some(token), now, remote) == InvalidToken
  {
  }

  /**
   * A token minted for one branch, shown with another branch of the same repository
   * within the window, is refused with both branch names in the details.
   */
  lemma WrongBranch(session: Session, minted: string, asked: string, repo: Option<string>, t: int, now: int,
                    remote: Mutation -> Reply)
    requires session.authenticated && ResolveRepo(repo, session.repo).Some?
    requires Delimiter !in minted && Delimiter !in ResolveRepo(repo, session.repo).value
    requires minted != asked && now - t <= ValidityDuration
    ensures var target := ResolveRepo(repo, session.repo).value;
            var first := DeleteBranchTool(session, minted, repo, None, t, remote);
            && first.AwaitingConfirmation?
            && DeleteBranchTool(session, asked, repo, Some(first.token), now, remote)
               == Mismatch(BranchParams(minted, target), BranchParams(asked, target))
  {
    var target := ResolveRepo(repo, session.repo).value;
    var token := Mint([minted, target], t);
    assert DeleteBranchTool(session, minted, repo, None, t, remote) == AwaitingConfirmation(Prompt(minted), token);
    MintedVerdict(minted, target, t, now);
    JudgedByVerdict(session, asked, repo, token, now, remote);
    assert [minted, target] != [asked, target];
  }

  /** The delete-branch scenario: `feat` in `o/r` is deleted on confirmation and refused for `other`. */
  lemma FeatureBranchScenario(session: Session, t: int, remote: Mutation -> Reply)
    requires session.authenticated
    ensures var asked := DeleteBranchTool(session, "feat", Some("o/r"), None, t, remote);
            && asked.AwaitingConfirmation?
            && Open(asked.token, 3) == Some(Opened(["feat", "o/r"], t))
            && DeleteBranchTool(session, "feat", Some("o/r"), Some(asked.token), t + 10, remote).Authorized?
            && DeleteBranchTool(session, "other", Some("o/r"), Some(asked.token), t + 10, remote)
               == Mismatch(BranchParams("feat", "o/r"), BranchParams("other", "o/r"))
  {
    MintWithoutToken(session, "feat", Some("o/r"), None, t, remote);
    ConfirmRoundTrip(session, "feat", Some("o/r"), t, t + 10, remote);
    WrongBranch(session, "feat", "other", Some("o/r"), t, t + 10, remote);
  }
}
