/**
 * What `get_issues_tool` and `search_issues_tool` share: the issue records of the
 * search API, their reshaped form, the filter qualifiers of the search query and
 * the answers.
 */
module Issues {
  import opened Wrappers
  import opened Text
  import opened Access

  /** The fields of one `items` entry of the search API that the tools read. */
  datatype IssueItem = IssueItem(id: int, title: string, htmlUrl: string, state: string,
                                 createdAt: string, updatedAt: string, comments: int, commentsUrl: string)

  /** A comment of an issue as the comments API returns it. */
  datatype Comment = Comment(id: int, body: string, htmlUrl: string)

  /** A comment that contains the search term, as attached under an issue's `messages`. */
  datatype MatchedComment = MatchedComment(commentId: int, comment: string, url: string, matchedIn: string)

  /** One reshaped issue; `messages` is present only when matching comments were found. */
  datatype IssueSummary = IssueSummary(id: int, title: string, url: string, state: string,
                                       createdAt: string, updatedAt: string, comments: int,
                                       messages: Option<seq<MatchedComment>>)

  /** The optional filters, each added to the query only when truthy. */
  datatype Filters = Filters(state: Option<string>, labels: Option<string>, assignee: Option<string>,
                             milestone: Option<string>)

  /** The query parameters of the search request; `q` is the built query. */
  datatype SearchParams = SearchParams(q: string, sort: Option<string>, order: Option<string>,
                                       perPage: Option<int>, page: Option<int>)

  /** The search request: an exception (including a 4xx or 5xx status), a body that is not JSON, or the decoded `items` (absent or present). */
  datatype SearchReply = SearchFailed(reason: string) | Undecodable | Decoded(items: Option<seq<IssueItem>>)

  const UndecodableError := "Failed to decode JSON response"

  /** The answer of an issue tool. */
  datatype IssuesResult =
    | Denied(denial: Denial)
    | MissingRepo
    | Failed(error: string)
    | Listing(issues: seq<IssueSummary>, totalCount: int)

  /** A qualifier such as ` state:open`, written as its key ` state:` and the value; nothing for a falsy value. */
  function Qualifier(key: string, value: Option<string>): string {
    if Truthy(value) then key + value.value else ""
  }

  /** The search query of the filters: the repository first, then state, labels, assignee and milestone. */
  function FilterQuery(repo: string, filters: Filters): (q: string)
    ensures "repo:" + repo <= q
  {
    "repo:" + repo + Qualifier(" state:", filters.state) + Qualifier(" labels:", filters.labels)
      + Qualifier(" assignee:", filters.assignee) + Qualifier(" milestone:", filters.milestone)
  }

  /** The filter query, built qualifier by qualifier as both tools do. */
  method BuildFilterQuery(repo: string, filters: Filters) returns (q: string)
    ensures q == FilterQuery(repo, filters)
  {
    q := "repo:" + repo;
    ghost var step := q;
    if Truthy(filters.state) {
      q := q + (" state:" + filters.state.value);
    }
    assert q == step + Qualifier(" state:", filters.state);
    step := q;
    if Truthy(filters.labels) {
      q := q + (" labels:" + filters.labels.value);
    }
    assert q == step + Qualifier(" labels:", filters.labels);
    step := q;
    if Truthy(filters.assignee) {
      q := q + (" assignee:" + filters.assignee.value);
    }
    assert q == step + Qualifier(" assignee:", filters.assignee);
    step := q;
    if Truthy(filters.milestone) {
      q := q + (" milestone:" + filters.milestone.value);
    }
    assert q == step + Qualifier(" milestone:", filters.milestone);
  }

  /** An issue reshaped, without messages. */
  function Summary(item: IssueItem): IssueSummary {
    IssueSummary(item.id, item.title, item.htmlUrl, item.state, item.createdAt, item.updatedAt, item.comments, None)
  }

  /** `s` carries the seven fields the tools copy from `item` (`html_url` as `url`); `messages` is left aside. */
  predicate Carries(s: IssueSummary, item: IssueItem) {
    && s.id == item.id && s.title == item.title && s.url == item.htmlUrl && s.state == item.state
    && s.createdAt == item.createdAt && s.updatedAt == item.updatedAt && s.comments == item.comments
  }

  /** Every truthy filter appears in the query as its qualifier, such as ` state:open`. */
  lemma QualifiersInQuery(repo: string, filters: Filters)
    ensures Truthy(filters.state) ==> Contains(FilterQuery(repo, filters), " state:" + filters.state.value)
    ensures Truthy(filters.labels) ==> Contains(FilterQuery(repo, filters), " labels:" + filters.labels.value)
    ensures Truthy(filters.assignee) ==> Contains(FilterQuery(repo, filters), " assignee:" + filters.assignee.value)
    ensures Truthy(filters.milestone) ==> Contains(FilterQuery(repo, filters), " milestone:" + filters.milestone.value)
  {
    var s := Qualifier(" state:", filters.state);
    var l := Qualifier(" labels:", filters.labels);
    var a := Qualifier(" assignee:", filters.assignee);
    var m := Qualifier(" milestone:", filters.milestone);
    assert FilterQuery(repo, filters) == "repo:" + repo + s + l + a + m;
    EachPieceContained("repo:" + repo, s, l, a, m);
  }

  /** Each of the five pieces of a concatenation is contained in it. */
  lemma EachPieceContained(h: string, s: string, l: string, a: string, m: string)
    ensures var q := h + s + l + a + m;
            Contains(q, s) && Contains(q, l) && Contains(q, a) && Contains(q, m)
  {
    var q := h + s + l + a + m;
    assert q == h + s + (l + a + m);
    ContainsInfix(h, s, l + a + m);
    assert q == (h + s) + l + (a + m);
    ContainsInfix(h + s, l, a + m);
    assert q == (h + s + l) + a + m;
    ContainsInfix(h + s + l, a, m);
    assert q == (h + s + l + a) + m + [];
    ContainsInfix(h + s + l + a, m, []);
  }

  /** Falsy filters (missing or empty) add nothing: without any, the query is the repository qualifier alone. */
  lemma UnfilteredQuery(repo: string, filters: Filters)
    requires !Truthy(filters.state) && !Truthy(filters.labels) && !Truthy(filters.assignee) && !Truthy(filters.milestone)
    ensures FilterQuery(repo, filters) == "repo:" + repo
  {
  }

  /** An empty filter value acts exactly as a missing one. */
  lemma EmptyFilterIsMissing(repo: string, filters: Filters)
    ensures FilterQuery(repo, filters.(state := Some(""))) == FilterQuery(repo, filters.(state := None))
    ensures FilterQuery(repo, filters.(labels := Some(""))) == FilterQuery(repo, filters.(labels := None))
    ensures FilterQuery(repo, filters.(assignee := Some(""))) == FilterQuery(repo, filters.(assignee := None))
    ensures FilterQuery(repo, filters.(milestone := Some(""))) == FilterQuery(repo, filters.(milestone := None))
  {
  }
}
