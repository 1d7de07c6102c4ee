/**
 * `list_files_tool`: the file paths of a repository's git tree, keeping blobs only
 * and, when folders are given, only paths that start with one of them.
 */
module ListFiles {
  import opened Wrappers
  import opened Access

  /** One entry of the recursive git tree: its `type` and its `path`. */
  datatype TreeEntry = TreeEntry(kind: string, path: string)

  /** A GET answered with status 200 and a decoded body, or with another status and its text. */
  datatype Fetch<T> = Fetched(value: T) | HttpError(text: string)

  /** The answer of the tool; `NoBranches` is the `IndexError` raised when the branch list is empty. */
  datatype ListResult =
    | Unauthorized(denial: Denial)
    | MissingRepo
    | ApiError(error: string)
    | NoBranches
    | Files(files: seq<string>)

  function ApiErrorText(text: string): string {
    "GitHub API error: " + text
  }

  /** The folder filter: no list keeps everything, a list keeps paths starting with one of its folders. */
  predicate UnderFolders(path: string, folders: Option<seq<string>>) {
    folders.None? || exists folder :: folder in folders.value && folder <= path
  }

  /** The entries the filter keeps: blobs, under the folders. */
  predicate Keep(entry: TreeEntry, folders: Option<seq<string>>) {
    entry.kind == "blob" && UnderFolders(entry.path, folders)
  }

  /** The paths the filter keeps, in tree order. */
  function Selected(tree: seq<TreeEntry>, folders: Option<seq<string>>): (r: seq<string>)
    ensures forall i :: 0 <= i < |r| ==> UnderFolders(r[i], folders)
    decreases |tree|
  {
    if |tree| == 0 then []
    else
      var last := tree[|tree| - 1];
      Selected(tree[..|tree| - 1], folders) + if Keep(last, folders) then [last.path] else []
  }

  /** The filtering loop: walks the tree once, appending every kept path. */
  method FilterTree(tree: seq<TreeEntry>, folders: Option<seq<string>>) returns (files: seq<string>)
    ensures files == Selected(tree, folders)
  {
    files := [];
    for i := 0 to |tree|
      invariant files == Selected(tree[..i], folders)
    {
      var entry := tree[i];
      if entry.kind == "blob" {
        if folders.None? || exists folder :: folder in folders.value && folder <= entry.path {
          files := files + [entry.path];
        }
      }
      assert tree[..i + 1][..i] == tree[..i];
    }
    assert tree[..|tree|] == tree;
  }

  /** The filter distributes over concatenation: it keeps the tree's order. */
  lemma {:induction false} SelectedAppend(a: seq<TreeEntry>, b: seq<TreeEntry>, folders: Option<seq<string>>)
    ensures Selected(a + b, folders) == Selected(a, folders) + Selected(b, folders)
    decreases |b|
  {
    if |b| == 0 {
      assert a + b == a;
    } else {
      var init := b[..|b| - 1];
      assert (a + b)[..|a + b| - 1] == a + init;
      assert (a + b)[|a + b| - 1] == b[|b| - 1];
      SelectedAppend(a, init, folders);
    }
  }

  /** A path is listed exactly when some kept entry of the tree has it. */
  lemma {:induction false} SelectedMembers(tree: seq<TreeEntry>, folders: Option<seq<string>>, p: string)
    ensures p in Selected(tree, folders) <==> exists i :: 0 <= i < |tree| && Keep(tree[i], folders) && tree[i].path == p
    decreases |tree|
  {
    if |tree| > 0 {
      var init := tree[..|tree| - 1];
      SelectedMembers(init, folders, p);
      assert forall i :: 0 <= i < |init| ==> tree[i] == init[i];
    }
  }

  /** The filter never lists more paths than the tree has entries. */
  lemma {:induction false} SelectedLength(tree: seq<TreeEntry>, folders: Option<seq<string>>)
    ensures |Selected(tree, folders)| <= |tree|
    decreases |tree|
  {
    if |tree| > 0 {
      SelectedLength(tree[..|tree| - 1], folders);
    }
  }

  /**
   * The edge cases of the folder list: an empty list keeps nothing (no folder can
   * match), while the empty folder keeps every blob, as no list at all does.
   */
  lemma {:induction false} FolderEdgeCases(tree: seq<TreeEntry>)
    ensures Selected(tree, Some([])) == []
    ensures Selected(tree, Some([""])) == Selected(tree, None)
    decreases |tree|
  {
    if |tree| > 0 {
      FolderEdgeCases(tree[..|tree| - 1]);
      var last := tree[|tree| - 1];
      assert "" in [""] && "" <= last.path;
    }
  }

  /**
   * The branch the tree is read from: the argument when it is truthy, else the
   * first branch of the repository's branch list (the first listed, which is not
   * necessarily the repository's default branch).
   */
  datatype BranchChoice = Chosen(name: string) | BranchFetchFailed(text: string) | NoBranchListed

  function ChooseBranch(target: string, branch: Option<string>, fetchBranches: string -> Fetch<seq<string>>): (c: BranchChoice)
    ensures Truthy(branch) ==> c == Chosen(branch.value)
    ensures !Truthy(branch) && fetchBranches(target).HttpError? ==> c == BranchFetchFailed(fetchBranches(target).text)
    ensures !Truthy(branch) && fetchBranches(target).Fetched? && fetchBranches(target).value != [] ==>
              c == Chosen(fetchBranches(target).value[0])
    ensures !Truthy(branch) && fetchBranches(target) == Fetched([]) ==> c == NoBranchListed
  {
    if Truthy(branch) then Chosen(branch.value)
    else
      match fetchBranches(target)
      case HttpError(text) => BranchFetchFailed(text)
      case Fetched(names) => if |names| == 0 then NoBranchListed else Chosen(names[0])
  }

  /** What the tool answers, the filter taken as `Selected`; a missing `tree` key counts as an empty tree. */
  function Listing(session: Session, folders: Option<seq<string>>, repo: Option<string>, branch: Option<string>,
                   fetchBranches: string -> Fetch<seq<string>>,
                   fetchTree: (string, string) -> Fetch<Option<seq<TreeEntry>>>): (r: ListResult)
    ensures r.Files? ==> session.authenticated && ResolveRepo(repo, session.repo).Some?
    ensures r.Files? ==> forall i :: 0 <= i < |r.files| ==> UnderFolders(r.files[i], folders)
    ensures !session.authenticated ==> r == Unauthorized(Denial(session.errorMessage.GetOr(NotAuthenticated)))
    ensures session.authenticated && ResolveRepo(repo, session.repo).None? ==> r == MissingRepo
  {
    match CheckAccess(session)
    case Some(denial) => Unauthorized(denial)
    case None =>
      match ResolveRepo(repo, session.repo)
      case None => MissingRepo
      case Some(target) =>
        match ChooseBranch(target, branch, fetchBranches)
        case BranchFetchFailed(text) => ApiError(ApiErrorText(text))
        case NoBranchListed => NoBranches
        case Chosen(name) =>
          match fetchTree(target, name)
          case HttpError(text) => ApiError(ApiErrorText(text))
          case Fetched(tree) => Files(Selected(tree.GetOr([]), folders))
  }

  /** The tool: authentication, the repository, the branch, the tree, then the filtering loop. */
  method ListFilesTool(session: Session, folders: Option<seq<string>>, repo: Option<string>, branch: Option<string>,
                       fetchBranches: string -> Fetch<seq<string>>,
                       fetchTree: (string, string) -> Fetch<Option<seq<TreeEntry>>>)
    returns (r: ListResult)
    ensures r == Listing(session, folders, repo, branch, fetchBranches, fetchTree)
  {
    var denial := CheckAccess(session);
    if denial.Some? {
      return Unauthorized(denial.value);
    }
    if !Truthy(repo) && !Truthy(session.repo) {
      return MissingRepo;
    }
    var target := if Truthy(repo) then repo.value else session.repo.value;
    var name: string;
    if Truthy(branch) {
      name := branch.value;
    } else {
      var listed := fetchBranches(target);
      if listed.HttpError? {
        return ApiError(ApiErrorText(listed.text));
      }
      if |listed.value| == 0 {
        return NoBranches;
      }
      name := listed.value[0];
    }
    var fetched := fetchTree(target, name);
    if fetched.HttpError? {
      return ApiError(ApiErrorText(fetched.text));
    }
    var tree := if fetched.value.Some? then fetched.value.value else [];
    var files := FilterTree(tree, folders);
    return Files(files);
  }

  /**
   * Every listed path is the path of a blob in the tree fetched for the chosen
   * branch, under one of the folders, and every such blob path is listed.
   */
  lemma ListedAreKeptBlobs(session: Session, folders: Option<seq<string>>, repo: Option<string>, branch: Option<string>,
                           fetchBranches: string -> Fetch<seq<string>>,
                           fetchTree: (string, string) -> Fetch<Option<seq<TreeEntry>>>, p: string)
    requires Listing(session, folders, repo, branch, fetchBranches, fetchTree).Files?
    ensures var target := ResolveRepo(repo, session.repo).value;
            var name := ChooseBranch(target, branch, fetchBranches).name;
            var tree := fetchTree(target, name).value.GetOr([]);
            var files := Listing(session, folders, repo, branch, fetchBranches, fetchTree).files;
            p in files <==> exists i :: 0 <= i < |tree| && tree[i].kind == "blob" && UnderFolders(p, folders) && tree[i].path == p
  {
    var target := ResolveRepo(repo, session.repo).value;
    var name := ChooseBranch(target, branch, fetchBranches).name;
    var tree := fetchTree(target, name).value.GetOr([]);
    SelectedMembers(tree, folders, p);
  }

  /** A truthy branch argument is used as given: the branch list is never consulted. */
  lemma GivenBranchSkipsLookup(session: Session, folders: Option<seq<string>>, repo: Option<string>, branch: Option<string>,
                               fetchBranches: string -> Fetch<seq<string>>, other: string -> Fetch<seq<string>>,
                               fetchTree: (string, string) -> Fetch<Option<seq<TreeEntry>>>)
    requires Truthy(branch)
    ensures Listing(session, folders, repo, branch, fetchBranches, fetchTree)
         == Listing(session, folders, repo, branch, other, fetchTree)
  {
  }

  /** Without a branch, an empty branch list ends the request with the index error. */
  lemma EmptyBranchList(session: Session, folders: Option<seq<string>>, repo: Option<string>, branch: Option<string>,
                        fetchBranches: string -> Fetch<seq<string>>,
                        fetchTree: (string, string) -> Fetch<Option<seq<TreeEntry>>>)
    requires session.authenticated && ResolveRepo(repo, session.repo).Some? && !Truthy(branch)
    requires fetchBranches(ResolveRepo(repo, session.repo).value) == Fetched([])
    ensures Listing(session, folders, repo, branch, fetchBranches, fetchTree) == NoBranches
  {
  }
}
