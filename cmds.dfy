/**
  The application's messages and the commands of tui/cmds.go. Each command makes the
  process call its Go function makes and turns the outcome into at most one message: a
  failure that ends the process yields none, and runFileCmd yields none on success. The
  GitHub client, the HTTP download, zip decoding and the trace viewer are given as a
  Provider of answers, keyed by the arguments each call is made with.
 */
module Cmds {
  import opened Text
  import opened Process
  import Unzip

  /** The messages the application's Update tells apart: the data messages of
      tui/cmds.go, errorMsg, the screens' forward and back messages, and the terminal's
      own messages. */
  datatype Msg =
    | OrganizationData(results: seq<Result>)
    | RepositoryData(results: seq<Result>)
    | WorkflowData(results: seq<Result>)
    | ArtifactData(results: seq<Result>)
    | FilepickerData(artifactId: Int64)
    | ErrorMsg(err: string)
    | EnvironmentForward(payload: Result)
    | OrganizationForward(payload: Result)
    | OrganizationBack
    | RepositoryForward(payload: Result)
    | RepositoryBack
    | WorkflowForward(payload: Result)
    | WorkflowBack
    | ArtifactForward(payload: Result)
    | ArtifactBack
    | FilepickerSelected(path: string)
    | FilepickerBack
    | Key(key: string)
    | WindowSize(width: int, height: int)
    | ClearError
    | Other

  /** What running a command produces: one message, a nil message, or nothing at all
      because the process ended. */
  datatype Delivery = Message(msg: Msg) | NoMessage | Terminated

  /** The answers of the outside world, keyed by the arguments of each call. */
  datatype Provider = Provider(
    memberships: Reply<seq<Membership>>,
    repositoryPages: string -> seq<Reply<seq<Repository>>>,
    workflowRuns: (string, string) -> Reply<seq<WorkflowRun>>,
    artifacts: (string, string, Int64) -> Reply<seq<Artifact>>,
    downloadLocation: (string, string, Int64) -> Reply<string>,
    fetch: string -> Reply<seq<Unzip.Byte>>,
    decode: seq<Unzip.Byte> -> Unzip.Option<seq<Unzip.Entry>>,
    trace: string -> TraceRun)

  /** getOrganizationsCmd: the user's organizations, one Result per membership in order;
      a failed call ends the process. */
  method GetOrganizationsCmd(p: Provider) returns (d: Delivery)
    ensures p.memberships.Err? <==> d == Terminated
    ensures p.memberships.Ok? ==> var orgs := p.memberships.value;
      d.Message? && d.msg.OrganizationData? && |d.msg.results| == |orgs|
      && forall i :: 0 <= i < |orgs| ==>
           d.msg.results[i].id == orgs[i].orgId && d.msg.results[i].name == orgs[i].orgLogin
  {
    var s := GetOrganizations(p.memberships);
    d := match s
      case Returned(results) => Message(OrganizationData(results))
      case Failed(err) => Message(ErrorMsg(err))
      case Exited => Terminated;
  }

  /** getRepositoriesCmd(organization): the organization's repositories over all pages
      before the first empty one, in order; a failed page ends the process. */
  method GetRepositoriesCmd(p: Provider, organization: string) returns (d: Delivery)
    ensures Collect(p.repositoryPages(organization), 1).Exited? <==> d == Terminated
    ensures Collect(p.repositoryPages(organization), 1).Returned? ==>
      var repos := Collect(p.repositoryPages(organization), 1).value;
      d.Message? && d.msg.RepositoryData? && |d.msg.results| == |repos|
      && forall i :: 0 <= i < |repos| ==>
           d.msg.results[i].id == repos[i].id && d.msg.results[i].name == repos[i].name
  {
    var s, _ := GetRepositories(organization, p.repositoryPages(organization));
    d := match s
      case Returned(results) => Message(RepositoryData(results))
      case Failed(err) => Message(ErrorMsg(err))
      case Exited => Terminated;
  }

  /** getWorkflowsCmd(repository), with owner the selected organization's name: the runs
      of that repository in order, or errorMsg carrying the provider's error. */
  method GetWorkflowsCmd(p: Provider, owner: string, repository: string) returns (d: Delivery)
    ensures d.Message?
    ensures p.workflowRuns(owner, repository).Err? <==> d.msg.ErrorMsg?
    ensures d.msg.ErrorMsg? ==> d.msg.err == p.workflowRuns(owner, repository).err
    ensures p.workflowRuns(owner, repository).Ok? ==> var runs := p.workflowRuns(owner, repository).value;
      d.msg.WorkflowData? && |d.msg.results| == |runs|
      && forall i :: 0 <= i < |runs| ==>
           d.msg.results[i] == Result(runs[i].id, runs[i].name, "", runs[i].displayTitle, runs[i].conclusion)
  {
    var s := GetWorkflowRuns(p.workflowRuns(owner, repository));
    d := match s
      case Returned(results) => Message(WorkflowData(results))
      case Failed(err) => Message(ErrorMsg(err))
      case Exited => Terminated;
  }

  /** getArtifactsCmd(workflowId), with the selected organization and repository: the
      run's artifacts in order; a failed call ends the process. */
  method GetArtifactsCmd(p: Provider, owner: string, repository: string, workflowId: Int64)
    returns (d: Delivery)
    ensures p.artifacts(owner, repository, workflowId).Err? <==> d == Terminated
    ensures p.artifacts(owner, repository, workflowId).Ok? ==>
      var arts := p.artifacts(owner, repository, workflowId).value;
      d.Message? && d.msg.ArtifactData? && |d.msg.results| == |arts|
      && forall i :: 0 <= i < |arts| ==>
           d.msg.results[i].id == arts[i].id && d.msg.results[i].name == arts[i].name
  {
    var s := GetArtifacts(p.artifacts(owner, repository, workflowId));
    d := match s
      case Returned(results) => Message(ArtifactData(results))
      case Failed(err) => Message(ErrorMsg(err))
      case Exited => Terminated;
  }

  /** downloadArtifactCmd(artifactId), with the selected organization and repository:
      when the download and extraction get through, the message names the same artifact;
      no error message is ever produced, since every failure ends the process. */
  method DownloadArtifactCmd(p: Provider, fs: Unzip.FileSystem, owner: string, repository: string,
                             artifactId: Int64)
    returns (d: Delivery, after: Unzip.FileSystem)
    ensures d == Terminated || d == Message(FilepickerData(artifactId))
    ensures p.downloadLocation(owner, repository, artifactId).Err? ==> d == Terminated && after == fs
  {
    var s, fs' := Unzip.DownloadArtifact(artifactId, p.downloadLocation(owner, repository, artifactId),
                                          p.fetch, fs, p.decode);
    after := fs';
    d := match s
      case Returned(_) => Message(FilepickerData(artifactId))
      case Failed(err) => Message(ErrorMsg(err))
      case Exited => Terminated;
  }

  /** runFileCmd(path): the actions of Run, then a nil message, unless the trace viewer
      failed, which ends the process. */
  method RunFileCmd(p: Provider, path: string) returns (d: Delivery, actions: seq<Action>)
    ensures actions == Dispatch(path)
    ensures d == NoMessage || d == Terminated
    ensures d == Terminated <==> Contains(path, "zip") && !p.trace(path).TraceDone?
  {
    var s;
    actions, s := Run(path, p.trace(path));
    ContainsIffOccurs(path, "zip");
    d := match s
      case Returned(_) => NoMessage
      case Failed(err) => Message(ErrorMsg(err))
      case Exited => Terminated;
  }
}
