/**
  The GitHub side of the application (process/main.go): the records the screens display,
  the mappings from the provider's records to them, the paginated repository listing and
  the choice of viewer for a downloaded file.

  The provider (the GitHub client) is not modelled: each call is a parameter holding the
  reply it gave, either a list of records or an error. A call to log.Fatal ends the process;
  it is the outcome Exited here.
 */
module Process {
  import opened Text

  /** process.Result: what every list screen shows and what the navigation carries. */
  datatype Result = Result(id: Int64, name: string, status: string, title: string, conclusion: string)

  /** The zero value of Result, which a message without an item carries. */
  const ZeroResult := Result(0, "", "", "", "")

  /** What the provider answered to one call. */
  datatype Reply<T> = Ok(value: T) | Err(err: string)

  /** How a call of the process package ended: it returned a value, it returned an error,
      or it ended the whole process (log.Fatal, panic). */
  datatype Status<T> = Returned(value: T) | Failed(err: string) | Exited

  /** The provider's records, reduced to the fields the mappings read. */
  datatype Membership = Membership(orgId: Int64, orgLogin: string)
  datatype Repository = Repository(id: Int64, name: string)
  datatype WorkflowRun = WorkflowRun(id: Int64, name: string, displayTitle: string, conclusion: string)
  datatype Artifact = Artifact(id: Int64, name: string)

  // ---------------------------------------------------------------------------
  // The Result mappings

  /** GetOrganizations: a failed call ends the process; otherwise one Result per
      membership, in order, carrying the organization's id and login. */
  method GetOrganizations(reply: Reply<seq<Membership>>) returns (s: Status<seq<Result>>)
    ensures reply.Err? ==> s == Exited
    ensures reply.Ok? ==> s.Returned? && |s.value| == |reply.value|
    ensures reply.Ok? ==> forall i :: 0 <= i < |reply.value| ==>
      s.value[i] == Result(reply.value[i].orgId, reply.value[i].orgLogin, "", "", "")
  {
    if reply.Err? {
      return Exited;
    }
    var orgs: seq<Result> := [];
    for i := 0 to |reply.value|
      invariant |orgs| == i
      invariant forall j :: 0 <= j < i ==>
        orgs[j] == Result(reply.value[j].orgId, reply.value[j].orgLogin, "", "", "")
    {
      var org := reply.value[i];
      orgs := orgs + [Result(org.orgId, org.orgLogin, "", "", "")];
    }
    return Returned(orgs);
  }

  /** GetWorkflowRuns: the one call whose failure is returned as an error instead of ending
      the process; otherwise one Result per run, in order, with id, name, display title and
      conclusion. */
  method GetWorkflowRuns(reply: Reply<seq<WorkflowRun>>) returns (s: Status<seq<Result>>)
    ensures reply.Err? ==> s == Failed(reply.err)
    ensures reply.Ok? ==> s.Returned? && |s.value| == |reply.value|
    ensures reply.Ok? ==> forall i :: 0 <= i < |reply.value| ==>
      var run := reply.value[i];
      s.value[i] == Result(run.id, run.name, "", run.displayTitle, run.conclusion)
  {
    if reply.Err? {
      return Failed(reply.err);
    }
    var runs: seq<Result> := [];
    for i := 0 to |reply.value|
      invariant |runs| == i
      invariant forall j :: 0 <= j < i ==>
        var run := reply.value[j];
        runs[j] == Result(run.id, run.name, "", run.displayTitle, run.conclusion)
    {
      var run := reply.value[i];
      runs := runs + [Result(run.id, run.name, "", run.displayTitle, run.conclusion)];
    }
    return Returned(runs);
  }

  /** GetArtifacts: a failed call ends the process; otherwise one Result per artifact, in
      order, with its id and name. */
  method GetArtifacts(reply: Reply<seq<Artifact>>) returns (s: Status<seq<Result>>)
    ensures reply.Err? ==> s == Exited
    ensures reply.Ok? ==> s.Returned? && |s.value| == |reply.value|
    ensures reply.Ok? ==> forall i :: 0 <= i < |reply.value| ==>
      s.value[i] == Result(reply.value[i].id, reply.value[i].name, "", "", "")
  {
    if reply.Err? {
      return Exited;
    }
    var artifacts: seq<Result> := [];
    for i := 0 to |reply.value|
      invariant |artifacts| == i
      invariant forall j :: 0 <= j < i ==>
        artifacts[j] == Result(reply.value[j].id, reply.value[j].name, "", "", "")
    {
      var artifact := reply.value[i];
      artifacts := artifacts + [Result(artifact.id, artifact.name, "", "", "")];
    }
    return Returned(artifacts);
  }

  // ---------------------------------------------------------------------------
  // Pagination of the repository listing

  /** Repositories are requested 100 to a page, sorted by full name. */
  const PerPage: nat := 100

  /** The options of one ListByOrg call. */
  datatype PageRequest = PageRequest(organization: string, sort: string, page: nat, perPage: nat)

  /** The provider's answer for page p (1-based): the organization's listing is finite, so
      every page past the last one is empty. */
  function Page(pages: seq<Reply<seq<Repository>>>, p: nat): Reply<seq<Repository>>
    requires p >= 1
  {
    if p <= |pages| then pages[p - 1] else Ok([])
  }

  /** The repositories gathered from page p on: pages are concatenated up to the first
      empty one; a failed page ends the process. */
  function Collect(pages: seq<Reply<seq<Repository>>>, p: nat): (s: Status<seq<Repository>>)
    requires p >= 1
    ensures !s.Failed?
    decreases |pages| + 1 - p
  {
    match Page(pages, p)
    case Err(_) => Exited
    case Ok(r) =>
      if r == [] then Returned([])
      else
        match Collect(pages, p + 1)
        case Returned(rest) => Returned(r + rest)
        case _ => Exited
  }

  /** The requests for pages lo..hi-1, in order. */
  function Requests(organization: string, lo: nat, hi: nat): (rs: seq<PageRequest>)
    requires lo <= hi
    decreases hi - lo
    ensures |rs| == hi - lo
    ensures forall i :: 0 <= i < |rs| ==> rs[i] == PageRequest(organization, "full_name", lo + i, PerPage)
  {
    if lo == hi then [] else [PageRequest(organization, "full_name", lo, PerPage)] + Requests(organization, lo + 1, hi)
  }

  /** Concatenation of the repositories on a run of pages that all succeeded. */
  function Concat(pages: seq<Reply<seq<Repository>>>): seq<Repository>
    requires forall i :: 0 <= i < |pages| ==> pages[i].Ok?
  {
    if pages == [] then [] else pages[0].value + Concat(pages[1..])
  }

  /** Prefixing a status's value with repositories gathered earlier. */
  function Prepend(acc: seq<Repository>, s: Status<seq<Repository>>): Status<seq<Repository>>
  {
    if s.Returned? then Returned(acc + s.value) else s
  }

  /** The number of the page that stops the loop: the first empty or failed page. */
  function StopPage(pages: seq<Reply<seq<Repository>>>, p: nat): (k: nat)
    requires 1 <= p <= |pages| + 1
    ensures p <= k <= |pages| + 1
    decreases |pages| + 1 - p
  {
    if Page(pages, p) == Ok([]) || Page(pages, p).Err? then p else StopPage(pages, p + 1)
  }

  /** GetRepositories: requests pages 1, 2, 3, ... until one comes back empty, and maps the
      repositories gathered, in order, to Results. */
  method GetRepositories(organization: string, pages: seq<Reply<seq<Repository>>>)
    returns (s: Status<seq<Result>>, requests: seq<PageRequest>)
    ensures requests == Requests(organization, 1, StopPage(pages, 1) + 1)
    ensures Collect(pages, 1).Exited? ==> s == Exited
    ensures Collect(pages, 1).Returned? ==> var repos := Collect(pages, 1).value;
      s.Returned? && |s.value| == |repos|
      && forall i :: 0 <= i < |repos| ==> s.value[i] == Result(repos[i].id, repos[i].name, "", "", "")
  {
    var githubRepositories: seq<Repository> := [];
    var page: nat := 1;
    var done := false;
    requests := [];
    assert Prepend([], Collect(pages, 1)) == Collect(pages, 1) by {
      if Collect(pages, 1).Returned? {
        assert [] + Collect(pages, 1).value == Collect(pages, 1).value;
      }
    }
    while !done
      invariant 1 <= page <= |pages| + 1
      invariant StopPage(pages, 1) == StopPage(pages, page)
      invariant requests == Requests(organization, 1, page + (if done then 1 else 0))
      invariant !done ==> Collect(pages, 1) == Prepend(githubRepositories, Collect(pages, page))
      invariant done ==> Page(pages, page) == Ok([]) && Collect(pages, 1) == Returned(githubRepositories)
      decreases |pages| + 1 - page, if done then 0 else 1
    {
      requests := requests + [PageRequest(organization, "full_name", page, PerPage)];
      RequestsSnoc(organization, 1, page);
      var reply := Page(pages, page);
      if reply.Err? {
        assert Collect(pages, page) == Exited;
        return Exited, requests;
      }
      if |reply.value| == 0 {
        assert githubRepositories + [] == githubRepositories;
        done := true;
      } else {
        PrependAssoc(githubRepositories, reply.value, Collect(pages, page + 1));
        githubRepositories := githubRepositories + reply.value;
        page := page + 1;
      }
    }
    var repositories := RepositoryResults(githubRepositories);
    return Returned(repositories), requests;
  }

  /** The mapping loop of GetRepositories: each repository becomes a Result with its id
      and name, in order. */
  method RepositoryResults(githubRepositories: seq<Repository>) returns (repositories: seq<Result>)
    ensures |repositories| == |githubRepositories|
    ensures forall i :: 0 <= i < |githubRepositories| ==>
      repositories[i] == Result(githubRepositories[i].id, githubRepositories[i].name, "", "", "")
  {
    repositories := [];
    for i := 0 to |githubRepositories|
      invariant |repositories| == i
      invariant forall j :: 0 <= j < i ==>
        repositories[j] == Result(githubRepositories[j].id, githubRepositories[j].name, "", "", "")
    {
      var repository := githubRepositories[i];
      repositories := repositories + [Result(repository.id, repository.name, "", "", "")];
    }
  }

  lemma RequestsSnoc(organization: string, lo: nat, hi: nat)
    requires lo <= hi
    ensures Requests(organization, lo, hi) + [PageRequest(organization, "full_name", hi, PerPage)]
      == Requests(organization, lo, hi + 1)
  {
    var rs := Requests(organization, lo, hi) + [PageRequest(organization, "full_name", hi, PerPage)];
    var ts := Requests(organization, lo, hi + 1);
    assert |rs| == |ts|;
    assert forall i :: 0 <= i < |rs| ==> rs[i] == ts[i];
  }

  lemma PrependAssoc(acc: seq<Repository>, r: seq<Repository>, s: Status<seq<Repository>>)
    ensures Prepend(acc, Prepend(r, s)) == Prepend(acc + r, s)
  {
    if s.Returned? {
      assert acc + (r + s.value) == acc + r + s.value;
    }
  }

  /** The pagination stops at the first empty page: when pages 1..k-1 all come back
      non-empty and page k comes back empty, the result is pages 1..k-1 concatenated in
      order, and exactly pages 1..k are requested. */
  lemma {:induction false} PaginationConcatenates(pages: seq<Reply<seq<Repository>>>, k: nat)
    requires 1 <= k <= |pages| + 1
    requires forall i :: 0 <= i < k - 1 ==> pages[i].Ok? && pages[i].value != []
    requires Page(pages, k) == Ok([])
    ensures Collect(pages, 1) == Returned(Concat(pages[..k - 1]))
    ensures StopPage(pages, 1) == k
  {
    CollectFrom(pages, 1, k);
  }

  lemma {:induction false} CollectFrom(pages: seq<Reply<seq<Repository>>>, p: nat, k: nat)
    requires 1 <= p <= k <= |pages| + 1
    requires forall i :: 0 <= i < k - 1 ==> pages[i].Ok? && pages[i].value != []
    requires Page(pages, k) == Ok([])
    ensures Collect(pages, p) == Returned(Concat(pages[p - 1..k - 1]))
    ensures StopPage(pages, p) == k
    decreases k - p
  {
    if p < k {
      CollectFrom(pages, p + 1, k);
      assert pages[p - 1..k - 1] == [pages[p - 1]] + pages[p..k - 1];
    } else {
      assert pages[p - 1..k - 1] == [];
    }
  }

  /** A failed page before the first empty one ends the process, whatever follows it. */
  lemma {:induction false} PaginationFailure(pages: seq<Reply<seq<Repository>>>, k: nat)
    requires 1 <= k <= |pages|
    requires forall i :: 0 <= i < k - 1 ==> pages[i].Ok? && pages[i].value != []
    requires pages[k - 1].Err?
    ensures Collect(pages, 1) == Exited
    ensures StopPage(pages, 1) == k
  {
    FailFrom(pages, 1, k);
  }

  lemma {:induction false} FailFrom(pages: seq<Reply<seq<Repository>>>, p: nat, k: nat)
    requires 1 <= p <= k <= |pages|
    requires forall i :: 0 <= i < k - 1 ==> pages[i].Ok? && pages[i].value != []
    requires pages[k - 1].Err?
    ensures Collect(pages, p) == Exited
    ensures StopPage(pages, p) == k
    decreases k - p
  {
    if p < k {
      FailFrom(pages, p + 1, k);
    }
  }

  // ---------------------------------------------------------------------------
  // Run: opening a downloaded file

  /** What Run asks of the outside world: the browser to open a file, or a program run. */
  datatype Action = OpenInBrowser(path: string) | Exec(program: string, args: seq<string>)

  /** How the playwright subprocess went, when one is started. */
  datatype TraceRun = TraceDone | StartFailed(err: string) | WaitFailed(err: string)

  /** The actions Run takes for a path, in order. Each of "webm", "png" and "zip" is tested
      on its own, anywhere in the path, and a match does not stop the later tests. */
  function Dispatch(path: string): (r: seq<Action>)
    ensures |r| <= 3
    ensures forall a :: a in r ==> a == OpenInBrowser(path) || a == Exec("playwright", ["show-trace", path])
  {
    (if Contains(path, "webm") then [OpenInBrowser(path)] else [])
    + (if Contains(path, "png") then [OpenInBrowser(path)] else [])
    + (if Contains(path, "zip") then [Exec("playwright", ["show-trace", path])] else [])
  }

  /** Run(path): the actions it takes, in order, and how it ends. A failure to start or to
      wait for the trace viewer ends the process, which happens exactly when "zip" occurs
      in the path and the viewer does not run to completion; Run never returns an error. */
  method Run(path: string, trace: TraceRun) returns (actions: seq<Action>, s: Status<()>)
    ensures actions == Dispatch(path)
    ensures !s.Failed?
    ensures s.Exited? <==> (exists i :: OccursAt(path, "zip", i)) && !trace.TraceDone?
    ensures trace.TraceDone? ==> s == Returned(())
  {
    ContainsIffOccurs(path, "zip");
    actions := [];
    if Contains(path, "webm") {
      actions := actions + [OpenInBrowser(path)];
    }
    if Contains(path, "png") {
      actions := actions + [OpenInBrowser(path)];
    }
    if Contains(path, "zip") {
      actions := actions + [Exec("playwright", ["show-trace", path])];
      if trace.StartFailed? {
        return actions, Exited;
      }
      if trace.WaitFailed? {
        return actions, Exited;
      }
    }
    return actions, Returned(());
  }

  /** The tests are independent: the browser is asked once for each of "webm" and "png"
      that occurs, the trace viewer runs exactly when "zip" occurs, and a path with none of
      the three leads to no action. */
  lemma DispatchMatchesEach(path: string)
    ensures var acts := Dispatch(path);
      && |acts| == (if Contains(path, "webm") then 1 else 0) + (if Contains(path, "png") then 1 else 0)
                   + (if Contains(path, "zip") then 1 else 0)
      && (Exec("playwright", ["show-trace", path]) in acts <==> Contains(path, "zip"))
      && (OpenInBrowser(path) in acts <==> Contains(path, "webm") || Contains(path, "png"))
  {
  }

  /** A path ending in ".zip" opens the trace viewer. */
  lemma ZipSuffixRunsTrace(path: string)
    requires |path| >= 4 && path[|path| - 4..] == ".zip"
    ensures Exec("playwright", ["show-trace", path]) in Dispatch(path)
  {
    assert path[|path| - 3..] == "zip";
    SuffixIsContained(path, "zip");
  }

  /** The match is by substring, not by extension: a PNG image whose name mentions "zip"
      also starts the trace viewer on it. */
  lemma SubstringNotSuffix()
    ensures Dispatch("zipped.png") == [OpenInBrowser("zipped.png"), Exec("playwright", ["show-trace", "zipped.png"])]
  {
    var p := "zipped.png";
    assert p[0..3] == "zip";
    OccursAtContains(p, "zip", 0);
    assert p[7..10] == "png";
    OccursAtContains(p, "png", 7);
    assert "webm"[0] == 'w';
    FirstCharAbsent(p, "webm");
    DispatchImageAndTrace(p);
  }

  /** Any occurrence makes Contains hold. */
  lemma OccursAtContains(s: string, sub: string, i: int)
    requires 0 <= i <= |s| - |sub| && s[i..i + |sub|] == sub
    ensures Contains(s, sub)
  {
    assert OccursAt(s, sub, i);
    ContainsIffOccurs(s, sub);
  }

  /** A path matching the image and trace tests but not the video test opens in the browser
      and then runs the trace viewer. */
  lemma DispatchImageAndTrace(path: string)
    requires !Contains(path, "webm") && Contains(path, "png") && Contains(path, "zip")
    ensures Dispatch(path) == [OpenInBrowser(path), Exec("playwright", ["show-trace", path])]
  {
  }

  /** A string in which the first character of sub never appears does not contain sub. */
  lemma FirstCharAbsent(p: string, sub: string)
    requires |sub| > 0 && sub[0] !in p
    ensures !Contains(p, sub)
  {
    ContainsIffOccurs(p, sub);
    forall i | 0 <= i <= |p| - |sub| ensures !OccursAt(p, sub, i) {
      assert p[i..i + |sub|][0] == p[i];
    }
  }

}
