/** `get_issues_tool`: one search request for the repository's issues, reshaped and counted. */
module GetIssues {
  import opened Wrappers
  import opened Access
  import Outcomes
  import opened Issues

  /** The reshaped issues: one per item, in order, with the item's own fields and no messages. */
  function IssueList(items: seq<IssueItem>): (r: seq<IssueSummary>)
    ensures |r| == |items|
    ensures forall i :: 0 <= i < |items| ==> Carries(r[i], items[i]) && r[i].messages.None?
  {
    seq(|items|, i requires 0 <= i < |items| => Summary(items[i]))
  }

  /**
   * The tool: authentication, the repository, the query, the request; a request
   * exception or an undecodable body is an error, otherwise the issues with their count.
   */
  method GetIssuesTool(session: Session, repo: Option<string>, filters: Filters, sort: Option<string>,
                       order: Option<string>, perPage: Option<int>, page: Option<int>,
                       search: SearchParams -> SearchReply)
    returns (r: IssuesResult)
    ensures !session.authenticated ==> r == Denied(Denial(session.errorMessage.GetOr(NotAuthenticated)))
    ensures session.authenticated && ResolveRepo(repo, session.repo).None? ==> r == MissingRepo
    ensures session.authenticated && ResolveRepo(repo, session.repo).Some? ==>
      var reply := search(SearchParams(FilterQuery(ResolveRepo(repo, session.repo).value, filters), sort, order, perPage, page));
      && (reply.SearchFailed? ==> r == Failed(Outcomes.RequestFailed(reply.reason)))
      && (reply.Undecodable? ==> r == Failed(UndecodableError))
      && (reply.Decoded? ==> r == Listing(IssueList(reply.items.GetOr([])), |reply.items.GetOr([])|))
    ensures r.Listing? ==> r.totalCount == |r.issues|
  {
    var denial := CheckAccess(session);
    if denial.Some? {
      return Denied(denial.value);
    }
    if !Truthy(repo) && !Truthy(session.repo) {
      return MissingRepo;
    }
    var target := if Truthy(repo) then repo.value else session.repo.value;
    var q := BuildFilterQuery(target, filters);
    var reply := search(SearchParams(q, sort, order, perPage, page));
    if reply.SearchFailed? {
      return Failed(Outcomes.RequestFailed(reply.reason));
    }
    if reply.Undecodable? {
      return Failed(UndecodableError);
    }
    var items := if reply.items.Some? then reply.items.value else [];
    var issues := IssueList(items);
    return Listing(issues, |issues|);
  }
}
