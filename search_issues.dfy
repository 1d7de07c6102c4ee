/**
 * `search_issues_tool`: the issue search of `get_issues_tool` with a free search
 * term appended to the query, and optionally each issue's comments searched for it.
 */
module SearchIssues {
  import opened Wrappers
  import opened Text
  import opened Access
  import Outcomes
  import opened Issues
  import GetIssues

  /** The search query: the filter query, then the search term when it is truthy. */
  function SearchQuery(repo: string, filters: Filters, query: Option<string>): (q: string)
    ensures "repo:" + repo <= q
  {
    var base := FilterQuery(repo, filters);
    var q := base + if Truthy(query) then " " + query.value else "";
    assert base <= q;
    q
  }

  /** The query: the filter qualifiers, then the search term. */
  method BuildQuery(repo: string, filters: Filters, query: Option<string>) returns (q: string)
    ensures q == SearchQuery(repo, filters, query)
  {
    q := BuildFilterQuery(repo, filters);
    if Truthy(query) {
      q := q + (" " + query.value);
    }
  }

  /** Without a search term the query is exactly the one `get_issues_tool` sends; with one, it extends it. */
  lemma SearchQueryExtendsFilterQuery(repo: string, filters: Filters, query: Option<string>)
    ensures FilterQuery(repo, filters) <= SearchQuery(repo, filters, query)
    ensures !Truthy(query) ==> SearchQuery(repo, filters, query) == FilterQuery(repo, filters)
    ensures Truthy(query) ==> SearchQuery(repo, filters, query)[|FilterQuery(repo, filters)|..] == " " + query.value
    ensures Truthy(query) ==> Contains(SearchQuery(repo, filters, query), " " + query.value)
  {
    if Truthy(query) {
      var term := " " + query.value;
      assert SearchQuery(repo, filters, query) == FilterQuery(repo, filters) + term + [];
      ContainsInfix(FilterQuery(repo, filters), term, []);
    }
  }

  const MatchedInMessage := "message"

  /** `query and query in comment["body"]`. */
  predicate Matches(c: Comment, query: Option<string>) {
    Truthy(query) && Contains(c.body, query.value)
  }

  function AsMatch(c: Comment): MatchedComment {
    MatchedComment(c.id, c.body, c.htmlUrl, MatchedInMessage)
  }

  /** The comments containing the search term, in order, each marked as matched in the message. */
  function MatchingComments(comments: seq<Comment>, query: Option<string>): (r: seq<MatchedComment>)
    ensures |r| <= |comments|
    ensures !Truthy(query) ==> r == []
    ensures forall i :: 0 <= i < |r| ==> Truthy(query) && Contains(r[i].comment, query.value) && r[i].matchedIn == MatchedInMessage
    decreases |comments|
  {
    if |comments| == 0 then []
    else (if Matches(comments[0], query) then [AsMatch(comments[0])] else []) + MatchingComments(comments[1..], query)
  }

  /** Exactly the matching comments are reported: each one that contains the term is, and nothing else. */
  lemma {:induction false} MatchingMembers(comments: seq<Comment>, query: Option<string>, m: MatchedComment)
    ensures m in MatchingComments(comments, query) <==>
              exists i :: 0 <= i < |comments| && Matches(comments[i], query) && m == AsMatch(comments[i])
    decreases |comments|
  {
    if |comments| > 0 {
      MatchingMembers(comments[1..], query, m);
      assert forall i :: 0 < i < |comments| ==> comments[i] == comments[1..][i - 1];
      if exists i :: 0 <= i < |comments| && Matches(comments[i], query) && m == AsMatch(comments[i]) {
        var i :| 0 <= i < |comments| && Matches(comments[i], query) && m == AsMatch(comments[i]);
        if i > 0 {
          assert Matches(comments[1..][i - 1], query) && m == AsMatch(comments[1..][i - 1]);
        }
      }
    }
  }

  /**
   * The matching keeps the comments' order and multiplicity: it distributes over
   * concatenation, as a filter does.
   */
  lemma {:induction false} MatchingAppend(a: seq<Comment>, b: seq<Comment>, query: Option<string>)
    ensures MatchingComments(a + b, query) == MatchingComments(a, query) + MatchingComments(b, query)
    decreases |a|
  {
    if |a| == 0 {
      assert a + b == b;
    } else {
      MatchingAppend(a[1..], b, query);
      assert (a + b)[0] == a[0];
      assert (a + b)[1..] == a[1..] + b;
    }
  }

  /** The matching of one comment: itself as a match when it contains the term, nothing otherwise. */
  lemma MatchingSingle(c: Comment, query: Option<string>)
    ensures MatchingComments([c], query) == if Matches(c, query) then [AsMatch(c)] else []
  {
    assert [c][1..] == [];
  }

  /**
   * One issue reshaped; when comments are searched, the matches are attached under
   * `messages`, and only if there is at least one.
   */
  function Summarize(item: IssueItem, searchComments: bool, query: Option<string>,
                     fetchComments: string -> seq<Comment>): (r: IssueSummary)
    ensures Carries(r, item)
    ensures r.messages.Some? <==> searchComments && MatchingComments(fetchComments(item.commentsUrl), query) != []
    ensures r.messages.Some? ==> r.messages.value == MatchingComments(fetchComments(item.commentsUrl), query)
  {
    if searchComments then
      var matching := MatchingComments(fetchComments(item.commentsUrl), query);
      if matching != [] then Summary(item).(messages := Some(matching)) else Summary(item)
    else Summary(item)
  }

  /** Searching comments without a term attaches nothing: the summaries are those of `get_issues_tool`. */
  lemma NoTermNoMessages(item: IssueItem, searchComments: bool, query: Option<string>,
                         fetchComments: string -> seq<Comment>)
    requires !Truthy(query) || !searchComments
    ensures Summarize(item, searchComments, query, fetchComments) == Summary(item)
  {
  }

  /**
   * Without comment search, or without a term, the search tool reshapes every item
   * exactly as `get_issues_tool` does.
   */
  lemma PlainSearchIsGetIssues(items: seq<IssueItem>, searchComments: bool, query: Option<string>,
                               fetchComments: string -> seq<Comment>)
    requires !Truthy(query) || !searchComments
    ensures forall i :: 0 <= i < |items| ==> Summarize(items[i], searchComments, query, fetchComments) == GetIssues.IssueList(items)[i]
  {
    forall i | 0 <= i < |items|
      ensures Summarize(items[i], searchComments, query, fetchComments) == GetIssues.IssueList(items)[i]
    {
      NoTermNoMessages(items[i], searchComments, query, fetchComments);
    }
  }

  /** The loop over the items: one summary per item, in order. */
  method SummarizeIssues(items: seq<IssueItem>, searchComments: bool, query: Option<string>,
                         fetchComments: string -> seq<Comment>)
    returns (issues: seq<IssueSummary>)
    ensures |issues| == |items|
    ensures forall i :: 0 <= i < |items| ==> issues[i] == Summarize(items[i], searchComments, query, fetchComments)
  {
    issues := [];
    for i := 0 to |items|
      invariant |issues| == i
      invariant forall j :: 0 <= j < i ==> issues[j] == Summarize(items[j], searchComments, query, fetchComments)
    {
      var item := items[i];
      var summary := Summary(item);
      if searchComments {
        var comments := fetchComments(item.commentsUrl);
        var matching := MatchingComments(comments, query);
        if matching != [] {
          summary := summary.(messages := Some(matching));
        }
      }
      issues := issues + [summary];
    }
  }

  /**
   * The tool: authentication, the repository, the query, the request; a request
   * exception or an undecodable body is an error, otherwise the summaries with their count.
   */
  method SearchIssuesTool(session: Session, repo: Option<string>, filters: Filters, sort: Option<string>,
                          order: Option<string>, perPage: Option<int>, page: Option<int>,
                          searchComments: bool, query: Option<string>,
                          search: SearchParams -> SearchReply, fetchComments: string -> seq<Comment>)
    returns (r: IssuesResult)
    ensures !session.authenticated ==> r == Denied(Denial(session.errorMessage.GetOr(NotAuthenticated)))
    ensures session.authenticated && ResolveRepo(repo, session.repo).None? ==> r == MissingRepo
    ensures session.authenticated && ResolveRepo(repo, session.repo).Some? ==>
      var reply := search(SearchParams(SearchQuery(ResolveRepo(repo, session.repo).value, filters, query),
                                       sort, order, perPage, page));
      && (reply.SearchFailed? ==> r == Failed(Outcomes.RequestFailed(reply.reason)))
      && (reply.Undecodable? ==> r == Failed(UndecodableError))
      && (reply.Decoded? ==>
            var items := reply.items.GetOr([]);
            && r.Listing?
            && |r.issues| == |items|
            && forall i :: 0 <= i < |items| ==> r.issues[i] == Summarize(items[i], searchComments, query, fetchComments))
    ensures r.Listing? ==> r.totalCount == |r.issues|
  {
    var denial := CheckAccess(session);
    if denial.Some? {
      return Denied(denial.value);
    }
    if !Truthy(repo) && !Truthy(session.repo) {
      return MissingRepo;
    }
    var target := if Truthy(repo) then repo.value else session.repo.value;
    var q := BuildQuery(target, filters, query);
    var reply := search(SearchParams(q, sort, order, perPage, page));
    if reply.SearchFailed? {
      return Failed(Outcomes.RequestFailed(reply.reason));
    }
    if reply.Undecodable? {
      return Failed(UndecodableError);
    }
    var items := if reply.items.Some? then reply.items.value else [];
    var issues := SummarizeIssues(items, searchComments, query, fetchComments);
    return Listing(issues, |issues|);
  }
}
