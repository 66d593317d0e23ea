/**
  The application model of tui/main.go: a stack of screens, a loading message shown over
  them while a command runs, and one sub-model per screen. Update is the transition
  function of a finite state machine: data messages push a screen, forward messages start
  a command, back messages pop, and the rest goes to the screen on top unless a loading
  message is shown. The commands are returned as values; what the bubbles widgets answer
  for the message being handled is given as Widgets.
 */
module App {
  import opened Text
  import Process
  import opened ModeStack
  import List
  import Cmds
  import EnvironmentScreen
  import OrganizationScreen
  import RepositoryScreen
  import WorkflowScreen
  import ArtifactScreen
  import FilePickerScreen
  import Unzip

  datatype Model = Model(
    mode: seq<Mode>,
    loadingMessage: string,
    environment: EnvironmentScreen.Model,
    organization: OrganizationScreen.Model,
    repository: RepositoryScreen.Model,
    workflow: WorkflowScreen.Model,
    artifact: ArtifactScreen.Model,
    filepicker: FilePickerScreen.Model)

  /** What the widgets answer for the message being handled: the list widget of the screen
      on top, the file picker, and the working directory os.Getwd returns. */
  datatype Widgets = Widgets(list: List.WidgetState, pick: FilePickerScreen.Selection, wd: string)

  /** The provider calls the commands of tui/cmds.go make, with their arguments. */
  datatype Command =
    | FetchOrganizations
    | FetchRepositories(organization: string)
    | FetchWorkflows(owner: string, repository: string)
    | FetchArtifacts(owner: string, repository: string, workflowId: Int64)
    | Download(owner: string, repository: string, artifactId: Int64)
    | RunFile(path: string)

  /** The tea.Cmd an update returns: none, tea.Quit, a screen's command producing a
      message, the spinner started together with a provider command, a provider command
      alone, a widget's own command, a widget command batched with the error timer, the
      spinner's tick, or a run-time panic. */
  datatype Cmd =
    | NoCmd
    | Quit
    | Send(msg: Cmds.Msg)
    | StartLoading(command: Command)
    | Perform(command: Command)
    | WidgetCmd
    | ErrorTimer
    | SpinnerCmd
    | Crash

  /** NewModel: only the environment screen on the stack, no loading message, and every
      screen freshly made. */
  function NewModel(): (m: Model)
    ensures m.mode == [Environment] && m.loadingMessage == ""
    ensures m.organization.loading && m.repository.loading && m.workflow.loading
    ensures m.filepicker.clicksAwayFromRoot == 0
    ensures Valid(m)
  {
    Model([Environment], "", EnvironmentScreen.NewModel(), OrganizationScreen.NewModel(),
          RepositoryScreen.NewModel(), WorkflowScreen.NewModel(), ArtifactScreen.NewModel(),
          FilePickerScreen.NewModel())
  }

  /** model.GoForward: push a screen and drop the loading message. */
  function GoForwardTo(m: Model, v: Mode): (r: Model)
    ensures r.mode == GoForward(m.mode, v) && GetCurrent(r.mode) == v && r.loadingMessage == ""
    ensures r == m.(mode := r.mode, loadingMessage := "")
  {
    m.(mode := GoForward(m.mode, v), loadingMessage := "")
  }

  /** The stack discipline the application keeps: never empty, the environment screen at
      the bottom and nowhere else. */
  predicate Valid(m: Model)
  {
    |m.mode| >= 1 && m.mode[0] == Environment
    && forall i :: 1 <= i < |m.mode| ==> m.mode[i] != Environment
  }

  // ---------------------------------------------------------------------------
  // Translating messages for the screens

  /** What a list screen makes of a message: keys and window sizes are its own, anything
      else passes to its widget. */
  function ToListInput(msg: Cmds.Msg): List.Input
  {
    match msg
    case Key(key) => List.Key(key)
    case WindowSize(width, height) => List.WindowSize(width, height)
    case _ => List.Other
  }

  /** What the file picker makes of a message. */
  function ToPickerInput(msg: Cmds.Msg): FilePickerScreen.Input
  {
    match msg
    case Key(key) => FilePickerScreen.Key(key)
    case ClearError => FilePickerScreen.ClearError
    case FilepickerData(artifactId) => FilePickerScreen.ArtifactDir(artifactId)
    case _ => FilePickerScreen.Other
  }

  /** The widget selects a file only on its select key, enter. */
  function PickerAnswer(input: FilePickerScreen.Input, pick: FilePickerScreen.Selection): (sel: FilePickerScreen.Selection)
    ensures FilePickerScreen.SelectsOnEnter(input, sel)
  {
    if input == FilePickerScreen.Key("enter") then pick else FilePickerScreen.NoSelection
  }

  /** The command a list screen's signal becomes: its forward and back messages are sent
      back to the application. */
  function ListCmd(sig: List.Signal, forward: Process.Result -> Cmds.Msg, back: Cmds.Msg): (c: Cmd)
    ensures c.Send? <==> sig.ForwardMsg? || sig == List.BackMsg
    ensures c.Send? ==> c.msg == (if sig.ForwardMsg? then forward(sig.payload) else back)
  {
    match sig
    case Silent => NoCmd
    case ForwardMsg(payload) => Send(forward(payload))
    case BackMsg => Send(back)
    case Widget => WidgetCmd
    case Crash => Crash
  }

  /** The command the file picker's reply becomes. */
  function PickerCmd(reply: FilePickerScreen.Reply): (c: Cmd)
    ensures c.Send? ==> c.msg == Cmds.FilepickerBack || c.msg.FilepickerSelected?
  {
    match reply
    case WidgetCmd => WidgetCmd
    case WidgetAndTimer => ErrorTimer
    case BackMsg => Send(Cmds.FilepickerBack)
    case SelectedMsg(path) => Send(Cmds.FilepickerSelected(path))
  }

  /** The file picker's update for a message. */
  function Pick(m: Model, input: FilePickerScreen.Input, w: Widgets): (Model, Cmd)
  {
    var (f, reply) := FilePickerScreen.Update(m.filepicker, input, w.wd, PickerAnswer(input, w.pick));
    (m.(filepicker := f), PickerCmd(reply))
  }

  // ---------------------------------------------------------------------------
  // The transition function

  /** The messages model.Update handles by a case of its own; every other message falls
      through to Route. errorMsg has no case, and an environment choice that is neither
      "Github" nor "Local" falls through too. */
  predicate Handled(msg: Cmds.Msg)
  {
    match msg
    case ErrorMsg(_) => false
    case EnvironmentForward(p) => p.name == "Github" || p.name == "Local"
    case Key(key) => key == "ctrl+c"
    case ClearError => false
    case Other => false
    case _ => true
  }

  /** The data messages of tui/cmds.go. */
  predicate IsData(msg: Cmds.Msg)
  {
    msg.OrganizationData? || msg.RepositoryData? || msg.WorkflowData? || msg.ArtifactData?
    || msg.FilepickerData?
  }

  /** The screen a data message opens. */
  function DataScreen(msg: Cmds.Msg): Mode
    requires IsData(msg)
  {
    match msg
    case OrganizationData(_) => Organization
    case RepositoryData(_) => Repository
    case WorkflowData(_) => Workflow
    case ArtifactData(_) => Artifact
    case FilepickerData(_) => Filepicker
  }

  /** The back messages of the screens. */
  predicate IsBack(msg: Cmds.Msg)
  {
    msg.OrganizationBack? || msg.RepositoryBack? || msg.WorkflowBack? || msg.ArtifactBack?
    || msg.FilepickerBack?
  }

  /** The forward messages that start loading the next screen's data. */
  predicate StartsLoading(msg: Cmds.Msg)
  {
    (msg.EnvironmentForward? && msg.payload.name == "Github")
    || msg.OrganizationForward? || msg.RepositoryForward? || msg.WorkflowForward? || msg.ArtifactForward?
  }

  /** The fall-through part of model.Update: while a loading message is shown the spinner
      takes the message; otherwise the screen on top does. */
  function Route(m: Model, msg: Cmds.Msg, w: Widgets): (r: (Model, Cmd))
    ensures m.loadingMessage != "" ==> r == (m, SpinnerCmd)
    ensures m.loadingMessage == "" && |m.mode| == 0 ==> r == (m, Crash)
    ensures r.0.mode == m.mode && r.0.loadingMessage == m.loadingMessage
  {
    if m.loadingMessage != "" then (m, SpinnerCmd)
    else if |m.mode| == 0 then (m, Crash)
    else
      match GetCurrent(m.mode)
      case Environment =>
        // The environment screen never goes back, so its back message is never sent.
        var (s, sig) := EnvironmentScreen.Update(m.environment, ToListInput(msg), w.list);
        (m.(environment := s), ListCmd(sig, p => Cmds.EnvironmentForward(p), Cmds.Other))
      case Organization =>
        var (s, sig) := OrganizationScreen.Update(m.organization, ToListInput(msg), w.list);
        (m.(organization := s), ListCmd(sig, p => Cmds.OrganizationForward(p), Cmds.OrganizationBack))
      case Repository =>
        var (s, sig) := RepositoryScreen.Update(m.repository, ToListInput(msg), w.list);
        (m.(repository := s), ListCmd(sig, p => Cmds.RepositoryForward(p), Cmds.RepositoryBack))
      case Workflow =>
        var (s, sig) := WorkflowScreen.Update(m.workflow, ToListInput(msg), w.list);
        (m.(workflow := s), ListCmd(sig, p => Cmds.WorkflowForward(p), Cmds.WorkflowBack))
      case Artifact =>
        var (s, sig) := ArtifactScreen.Update(m.artifact, ToListInput(msg), w.list);
        (m.(artifact := s), ListCmd(sig, p => Cmds.ArtifactForward(p), Cmds.ArtifactBack))
      case Filepicker =>
        Pick(m, ToPickerInput(msg), w)
  }

  /** A back message: pop the top screen (an empty stack panics). */
  function Back(m: Model): (r: (Model, Cmd))
    ensures |m.mode| == 0 ==> r == (m, Crash)
    ensures |m.mode| >= 1 ==> r == (m.(mode := GoBack(m.mode)), NoCmd)
  {
    if |m.mode| == 0 then (m, Crash) else (m.(mode := GoBack(m.mode)), NoCmd)
  }

  /** The window size goes to every screen: each list screen's list records it and nothing
      else of that screen changes; in the file picker only its widget records it, so the
      picker's own model is unchanged. */
  function Resize(m: Model, width: int, height: int, w: Widgets): (r: Model)
    ensures r.mode == m.mode && r.loadingMessage == m.loadingMessage
    ensures r.environment == m.environment.(list := m.environment.list.(width := width, height := height))
    ensures r.organization == m.organization.(list := m.organization.list.(width := width, height := height))
    ensures r.repository == m.repository.(list := m.repository.list.(width := width, height := height))
    ensures r.workflow == m.workflow.(list := m.workflow.list.(width := width, height := height))
    ensures r.artifact == m.artifact.(list := m.artifact.list.(width := width, height := height))
    ensures r.filepicker == m.filepicker
  {
    var size := List.WindowSize(width, height);
    m.(environment := EnvironmentScreen.Update(m.environment, size, w.list).0,
       organization := OrganizationScreen.Update(m.organization, size, w.list).0,
       repository := RepositoryScreen.Update(m.repository, size, w.list).0,
       workflow := WorkflowScreen.Update(m.workflow, size, w.list).0,
       artifact := ArtifactScreen.Update(m.artifact, size, w.list).0,
       filepicker := FilePickerScreen.Update(m.filepicker, FilePickerScreen.Other, w.wd,
                                             FilePickerScreen.NoSelection).0)
  }

  /** model.Update. */
  function Update(m: Model, msg: Cmds.Msg, w: Widgets): (r: (Model, Cmd))
    ensures !Handled(msg) ==> r == Route(m, msg, w)
  {
    match msg
    case OrganizationData(results) =>
      var m1 := GoForwardTo(m, Organization);
      (m1.(organization := OrganizationScreen.Update(m1.organization, List.Items(results), w.list).0), NoCmd)
    case RepositoryData(results) =>
      var m1 := GoForwardTo(m, Repository);
      (m1.(repository := RepositoryScreen.Update(m1.repository, List.Items(results), w.list).0), NoCmd)
    case WorkflowData(results) =>
      var m1 := GoForwardTo(m, Workflow);
      (m1.(workflow := WorkflowScreen.Update(m1.workflow, List.Items(results), w.list).0), NoCmd)
    case ArtifactData(results) =>
      var m1 := GoForwardTo(m, Artifact);
      (m1.(artifact := ArtifactScreen.Update(m1.artifact, List.Items(results), w.list).0), NoCmd)
    case FilepickerData(artifactId) =>
      Pick(GoForwardTo(m, Filepicker), FilePickerScreen.ArtifactDir(artifactId), w)
    case EnvironmentForward(p) =>
      if p.name == "Github" then (m.(loadingMessage := "Loading organizations"), StartLoading(FetchOrganizations))
      else if p.name == "Local" then Pick(GoForwardTo(m, Filepicker), FilePickerScreen.Other, w)
      else Route(m, msg, w)
    case OrganizationForward(p) =>
      (m.(loadingMessage := "Loading repositories"), StartLoading(FetchRepositories(p.name)))
    case RepositoryForward(p) =>
      (m.(loadingMessage := "Loading workflows"),
       StartLoading(FetchWorkflows(m.organization.selected.name, p.name)))
    case WorkflowForward(p) =>
      (m.(loadingMessage := "Loading artifacts"),
       StartLoading(FetchArtifacts(m.organization.selected.name, m.repository.selected.name, p.id)))
    case ArtifactForward(p) =>
      (m.(loadingMessage := "Downloading files"),
       StartLoading(Download(m.organization.selected.name, m.repository.selected.name, p.id)))
    case OrganizationBack => Back(m)
    case RepositoryBack => Back(m)
    case WorkflowBack => Back(m)
    case ArtifactBack => Back(m)
    case FilepickerSelected(path) => (m, Perform(RunFile(path)))
    case FilepickerBack => Back(m)
    case Key(key) => if key == "ctrl+c" then (m, Quit) else Route(m, msg, w)
    case WindowSize(width, height) => (Resize(m, width, height, w), NoCmd)
    case _ => Route(m, msg, w)
  }

  // ---------------------------------------------------------------------------
  // Properties of the transition function

  /** Every data message pushes its own screen, whatever was on top, drops the loading
      message and hands the payload to that screen, which stops loading. */
  lemma DataPushes(m: Model, msg: Cmds.Msg, w: Widgets)
    requires IsData(msg)
    ensures var r := Update(m, msg, w).0;
      && r.mode == GoForward(m.mode, DataScreen(msg)) && r.loadingMessage == ""
      && (msg.OrganizationData? ==> r.organization.list.items == msg.results && !r.organization.loading)
      && (msg.RepositoryData? ==> r.repository.items == msg.results && !r.repository.loading)
      && (msg.WorkflowData? ==> r.workflow.items == msg.results && !r.workflow.loading)
      && (msg.ArtifactData? ==> r.artifact.items == msg.results)
  {
  }

  /** The file picker pushed for a downloaded artifact opens on the directory the artifact
      was extracted into. */
  lemma DownloadOpensExtraction(m: Model, artifactId: Int64, w: Widgets)
    ensures var r := Update(m, Cmds.FilepickerData(artifactId), w);
      && GetCurrent(r.0.mode) == Filepicker
      && r.0.filepicker.currentDirectory == w.wd + "/" + Unzip.Dst(artifactId)
      && r.1 == WidgetCmd
  {
  }

  /** The forward messages of the selection screens, and choosing "Github", start the
      spinner and the next fetch and change nothing but the loading message. The fetches
      take their context from the screens' selections. */
  lemma ForwardsStartLoading(m: Model, msg: Cmds.Msg, w: Widgets)
    requires StartsLoading(msg)
    ensures var r := Update(m, msg, w);
      && r.0 == m.(loadingMessage := r.0.loadingMessage) && r.0.loadingMessage != ""
      && r.1.StartLoading?
      && (msg.EnvironmentForward? ==> r.1.command == FetchOrganizations)
      && (msg.OrganizationForward? ==> r.1.command == FetchRepositories(msg.payload.name))
      && (msg.RepositoryForward? ==>
            r.1.command == FetchWorkflows(m.organization.selected.name, msg.payload.name))
      && (msg.WorkflowForward? ==>
            r.1.command == FetchArtifacts(m.organization.selected.name, m.repository.selected.name, msg.payload.id))
      && (msg.ArtifactForward? ==>
            r.1.command == Download(m.organization.selected.name, m.repository.selected.name, msg.payload.id))
  {
  }

  /** Choosing "Local" opens the file picker without loading anything. */
  lemma LocalOpensPicker(m: Model, p: Process.Result, w: Widgets)
    requires p.name == "Local"
    ensures var r := Update(m, Cmds.EnvironmentForward(p), w).0;
      r.mode == GoForward(m.mode, Filepicker) && r.loadingMessage == ""
  {
  }

  /** Every back message pops exactly one screen and leaves the loading message alone; on an
      empty stack it panics. */
  lemma BacksPop(m: Model, msg: Cmds.Msg, w: Widgets)
    requires IsBack(msg)
    ensures var r := Update(m, msg, w);
      && (|m.mode| >= 1 ==> r.0 == m.(mode := GoBack(m.mode)) && r.1 == NoCmd)
      && (|m.mode| == 0 ==> r.1 == Crash)
  {
  }

  /** A chosen file is run, and the screens stay as they are. */
  lemma SelectedFileRuns(m: Model, path: string, w: Widgets)
    ensures Update(m, Cmds.FilepickerSelected(path), w) == (m, Perform(RunFile(path)))
  {
  }

  /** While a loading message is shown, every message without a case of its own, errorMsg
      among them, goes to the spinner and changes nothing. */
  lemma LoadingShields(m: Model, msg: Cmds.Msg, w: Widgets)
    requires !Handled(msg) && m.loadingMessage != ""
    ensures Update(m, msg, w) == (m, SpinnerCmd)
  {
  }

  /** A failed workflow fetch leaves the spinner up for good: errorMsg has no case, so the
      loading message stays and nothing leads back. */
  lemma ErrorKeepsLoading(m: Model, err: string, w: Widgets)
    requires m.loadingMessage != ""
    ensures Update(m, Cmds.ErrorMsg(err), w) == (m, SpinnerCmd)
  {
  }

  /** a and b agree on every screen's sub-model except v's. */
  predicate SameScreensExcept(a: Model, b: Model, v: Mode)
  {
    && (v != Environment ==> a.environment == b.environment)
    && (v != Organization ==> a.organization == b.organization)
    && (v != Repository ==> a.repository == b.repository)
    && (v != Workflow ==> a.workflow == b.workflow)
    && (v != Artifact ==> a.artifact == b.artifact)
    && (v != Filepicker ==> a.filepicker == b.filepicker)
  }

  /** Without a loading message, a message without a case of its own goes only to the screen
      on top: the stack, the loading message and every other screen stay as they are. */
  lemma RoutesOnlyToCurrent(m: Model, msg: Cmds.Msg, w: Widgets)
    requires !Handled(msg) && m.loadingMessage == "" && |m.mode| >= 1
    ensures var r := Update(m, msg, w).0;
      r.mode == m.mode && r.loadingMessage == "" && SameScreensExcept(r, m, GetCurrent(m.mode))
  {
  }

  /** The loading message is dropped only by a push: when one was shown and is gone after
      an update, that update put a screen on top of the stack. */
  lemma LoadingClearedOnlyByPush(m: Model, msg: Cmds.Msg, w: Widgets)
    requires m.loadingMessage != ""
    ensures var r := Update(m, msg, w).0;
      r.loadingMessage == "" ==> |r.mode| == |m.mode| + 1 && r.mode[..|m.mode|] == m.mode
  {
  }

  // ---------------------------------------------------------------------------
  // The stack discipline

  /** Pushing any screen but the environment keeps the discipline. */
  lemma PushKeepsValid(m: Model, v: Mode)
    requires Valid(m) && v != Environment
    ensures Valid(m.(mode := GoForward(m.mode, v)))
  {
  }

  /** Popping a screen other than the environment keeps the discipline: there is always
      the environment below it. */
  lemma PopKeepsValid(m: Model)
    requires Valid(m) && GetCurrent(m.mode) != Environment
    ensures |m.mode| >= 2 && Valid(m.(mode := GoBack(m.mode)))
  {
  }

  /** The messages the terminal and the timers produce, as opposed to those the
      application's own commands produce. */
  predicate IsExternal(msg: Cmds.Msg)
  {
    msg.Key? || msg.WindowSize? || msg.ClearError? || msg.Other? || msg.ErrorMsg?
  }

  /** Data messages keep the discipline. */
  lemma DataKeepsValid(m: Model, msg: Cmds.Msg, w: Widgets)
    requires Valid(m) && IsData(msg)
    ensures Valid(Update(m, msg, w).0)
  {
    DataPushes(m, msg, w);
    PushKeepsValid(m, DataScreen(msg));
  }

  /** The messages a routed message may send back to the application from the screen v:
      a forward message or a chosen file, or a back message, but never from the
      environment screen. */
  predicate Sendable(v: Mode, msg: Cmds.Msg)
  {
    && (IsBack(msg) ==> v != Environment)
    && (msg.EnvironmentForward? || msg.FilepickerSelected? || IsBack(msg)
        || msg.OrganizationForward? || msg.RepositoryForward? || msg.WorkflowForward? || msg.ArtifactForward?)
  }

  /** What a routed message sends back is Sendable from the screen on top. */
  lemma RoutedSends(m: Model, msg: Cmds.Msg, w: Widgets)
    requires m.loadingMessage == "" && |m.mode| >= 1
    ensures var r := Route(m, msg, w);
      r.1.Send? ==> Sendable(GetCurrent(m.mode), r.1.msg)
  {
    if GetCurrent(m.mode) == Environment {
      EnvironmentSends(m, msg, w);
    } else if GetCurrent(m.mode) == Filepicker {
      PickerSends(m, msg, w);
    } else {
      ListScreenSends(m, msg, w);
    }
  }

  /** The environment screen sends only its forward message. */
  lemma EnvironmentSends(m: Model, msg: Cmds.Msg, w: Widgets)
    requires m.loadingMessage == "" && |m.mode| >= 1 && GetCurrent(m.mode) == Environment
    ensures var r := Route(m, msg, w);
      r.1.Send? ==> r.1.msg.EnvironmentForward?
  {
    var (s, sig) := EnvironmentScreen.Update(m.environment, ToListInput(msg), w.list);
    assert sig != List.BackMsg;
    assert Route(m, msg, w).1 == ListCmd(sig, p => Cmds.EnvironmentForward(p), Cmds.Other);
  }

  /** The file picker sends only its back message or a chosen file. */
  lemma PickerSends(m: Model, msg: Cmds.Msg, w: Widgets)
    requires m.loadingMessage == "" && |m.mode| >= 1 && GetCurrent(m.mode) == Filepicker
    ensures var r := Route(m, msg, w);
      r.1.Send? ==> r.1.msg == Cmds.FilepickerBack || r.1.msg.FilepickerSelected?
  {
    assert Route(m, msg, w) == Pick(m, ToPickerInput(msg), w);
  }

  /** The other list screens send their forward or back message. */
  lemma ListScreenSends(m: Model, msg: Cmds.Msg, w: Widgets)
    requires m.loadingMessage == "" && |m.mode| >= 1
    requires GetCurrent(m.mode) != Environment && GetCurrent(m.mode) != Filepicker
    ensures var r := Route(m, msg, w);
      r.1.Send? ==> Sendable(GetCurrent(m.mode), r.1.msg)
  {
  }

  /** Under synchronous delivery the discipline holds: an external message keeps it, and
      so does the message its command sends back when that message is handled next. */
  lemma DeliveryKeepsValid(m: Model, msg: Cmds.Msg, w: Widgets, w2: Widgets)
    requires Valid(m) && IsExternal(msg)
    ensures var r := Update(m, msg, w);
      && Valid(r.0)
      && (r.1.Send? ==> Valid(Update(r.0, r.1.msg, w2).0))
  {
    var r := Update(m, msg, w);
    if msg.WindowSize? {
      assert r.0.mode == m.mode;
      assert r.1 == NoCmd;
    } else if msg == Cmds.Key("ctrl+c") {
      assert r == (m, Quit);
    } else {
      assert !Handled(msg);
      assert r == Route(m, msg, w);
      if m.loadingMessage == "" && r.1.Send? {
        RoutedSends(m, msg, w);
        var next := r.1.msg;
        if IsBack(next) {
          BacksPop(r.0, next, w2);
          PopKeepsValid(r.0);
        } else if next.EnvironmentForward? && next.payload.name == "Local" {
          LocalOpensPicker(r.0, next.payload, w2);
          PushKeepsValid(r.0, Filepicker);
        } else if StartsLoading(next) {
          ForwardsStartLoading(r.0, next, w2);
        } else if next.FilepickerSelected? {
          SelectedFileRuns(r.0, next.path, w2);
        } else {
          assert next.EnvironmentForward? && !Handled(next);
          RoutedSends(r.0, next, w2);
        }
      }
    }
  }

  /** Under asynchronous delivery the discipline can break. From the start, choosing "Local"
      opens the file picker at depth 0; two esc keys there, both handled before either
      BackMsg arrives, send two back messages, and handling both empties the stack, after
      which the next key panics. */
  lemma StaleBacksEmptyTheStack()
    ensures
      var w := Widgets(List.WidgetState(List.Unfiltered, List.NoRow), FilePickerScreen.NoSelection, "");
      var (m, _) := Update(NewModel(), Cmds.EnvironmentForward(EnvironmentScreen.Environments[1]), w);
      var (m1, c1) := Update(m, Cmds.Key("esc"), w);
      var (m2, c2) := Update(m1, Cmds.Key("esc"), w);
      var (m3, _) := Update(m2, c1.msg, w);
      var (m4, _) := Update(m3, c2.msg, w);
      && m.mode == [Environment, Filepicker] && Valid(m)
      && c1 == Send(Cmds.FilepickerBack) && c2 == Send(Cmds.FilepickerBack)
      && m4.mode == [] && !Valid(m4)
      && Update(m4, Cmds.Key("esc"), w).1 == Crash
  {
    var w := Widgets(List.WidgetState(List.Unfiltered, List.NoRow), FilePickerScreen.NoSelection, "");
    var m0 := NewModel();
    var local := EnvironmentScreen.Environments[1];
    LocalOpensPicker(m0, local, w);
    var (m, _) := Update(m0, Cmds.EnvironmentForward(local), w);
    assert m.mode == [Environment, Filepicker];
    assert m.filepicker.clicksAwayFromRoot == 0;
    PushKeepsValid(m0, Filepicker);
    var (m1, c1) := Update(m, Cmds.Key("esc"), w);
    assert m1.mode == m.mode && c1 == Send(Cmds.FilepickerBack);
    assert m1.filepicker.clicksAwayFromRoot == 0;
    var (m2, c2) := Update(m1, Cmds.Key("esc"), w);
    assert m2.mode == m.mode && c2 == Send(Cmds.FilepickerBack);
  }

  // ---------------------------------------------------------------------------
  // The drill-down context

  /** The selected organization changes only when the organization screen is on top and
      forwards a choice, and then it is the organization forwarded; likewise for the
      selected repository. The later fetches read these selections. */
  lemma SelectionsChangeOnlyOnForward(m: Model, msg: Cmds.Msg, w: Widgets)
    ensures var r := Update(m, msg, w);
      && (r.0.organization.selected != m.organization.selected ==>
            && |m.mode| >= 1 && GetCurrent(m.mode) == Organization
            && r.1 == Send(Cmds.OrganizationForward(r.0.organization.selected)))
      && (r.0.repository.selected != m.repository.selected ==>
            && |m.mode| >= 1 && GetCurrent(m.mode) == Repository
            && r.1 == Send(Cmds.RepositoryForward(r.0.repository.selected)))
  {
  }

  /** On the organization screen, after the organizations arrived, enter on the k-th row
      selects the k-th organization and, once its forward message is handled, fetches that
      organization's repositories. */
  lemma ChosenOrganizationIsFetched(m: Model, orgs: seq<Process.Result>, k: nat, w: Widgets)
    requires k < |orgs| && w.list.filter != List.Filtering
    ensures
      var m1 := Update(m, Cmds.OrganizationData(orgs), w).0;
      && k < |m1.organization.list.rows|
      && var w1 := w.(list := List.WidgetState(w.list.filter, List.At(m1.organization.list.rows[k])));
      var (m2, c2) := Update(m1, Cmds.Key("enter"), w1);
      && c2 == Send(Cmds.OrganizationForward(orgs[k])) && m2.organization.selected == orgs[k]
      && Update(m2, c2.msg, w1).1 == StartLoading(FetchRepositories(orgs[k].name))
  {
  }
}
