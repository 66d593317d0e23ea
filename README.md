# platui in Dafny

platui is a terminal application. It walks a GitHub account from an organization, to a
repository, to a workflow run, to one of the run's artifacts. It downloads and unpacks the
artifact and opens the files it holds: a Playwright trace (`.zip`), a video (`.webm`) or a
screenshot (`.png`).

This project models the sequential logic of that program and proves properties of it.
The model has three parts.

- **The navigation state machine** (tui/main.go, tui/cmds.go and the screens).
  - The application model is a stack of screens with a loading message over it.
  - `App.Update` is its transition function. It takes a message and returns the new model and the command to run, as a value.
  - Each screen (environment, organization, repository, workflow, artifact, file picker) is a record with a pure `Update`. They are the Go value-receiver methods, which return an updated copy.
  - Each command of tui/cmds.go is a method. It makes the process calls its Go function makes, with the provider's answers as inputs. It yields at most one message. A failed call that ends the process yields none (`Terminated`), and `runFileCmd` yields none when it succeeds (`NoMessage`).
- **Artifact extraction and the provider helpers** (process/main.go).
  - `Paths` models `filepath.Clean`, `Join` and `Dir` lexically.
  - `Unzip` models the archive as a sequence of entries and the file system as a map from path strings to nodes.
    - The entry loop is a method proved against the function `Extract`.
    - The zip-slip guard is characterised exactly: an entry is accepted if and only if its cleaned path is a strict descendant of `output/<id>`.
  - The `Get*` mappings are methods with loops. `GetOrganizations`, `GetWorkflowRuns` and `GetArtifacts` state their result index by index. The page-until-empty loop of `GetRepositories` is proved against the specification functions `Requests`, `StopPage` and `Collect`.
  - `Run` is a method with the three independent tests of the code. The actions it takes are the specification function `Dispatch` over `strings.Contains`.
- **The file-picker depth counter** (tui/filepicker/main.go): a small counter machine.

Outside-world effects are parameters.
- The GitHub client's answers, the HTTP body, zip decoding and the trace viewer's exit are answers keyed by the arguments of each call (`Cmds.Provider`).
- The bubbles list and file-picker widgets' answers are inputs (`List.WidgetState`, `FilePickerScreen.Selection`).
- `os.Getwd` is the `wd` parameter.

`log.Fatal` and `panic` end the process. They are modelled as the outcome `Exited` (`Terminated` for a command, `Crash` for a panic inside `Update`).

Behaviours of the code worth knowing:

- An absolute entry name such as `/etc/passwd` is not rejected. `filepath.Join` places it under `output/<id>/` (`Unzip.AbsoluteNameIsConfined`). Only names that clean to a path outside, or to `output/<id>` itself, are rejected.
- A rejected entry stops the extraction without an error. The code prints "invalid file path" and returns. Earlier writes remain and `DownloadArtifact` still succeeds (`Unzip.StopAt`, `Unzip.DownloadArtifact`).
- A file entry whose contents cannot be read panics only after its target was created or truncated. The target keeps the bytes copied before the failure (`Unzip.CorruptEntryLeavesPartialFile`).
- `Run` uses `strings.Contains`, not a suffix test, and its three tests are independent. So `zipped.png` both opens in the browser and runs the trace viewer (`Process.SubstringNotSuffix`).
- A failed fetch does not return to the previous screen.
  - Every provider failure except the workflow listing ends the process.
  - A failed workflow listing produces `errorMsg`. `errorMsg` has no case in `model.Update`, so it goes to the spinner and the loading message stays for good (`App.ErrorKeepsLoading`).

The Go sources do not quite fit together, and the model resolves each mismatch as follows:

- The screens build `list.Item` values, which the list package does not define, and hand them to `list.Update`, which only handles `[]process.Result`. The model hands the Results themselves to the list.
- The list's message carries the chosen Result. The repository, workflow, artifact and environment screens use it as an index, and the organization screen uses it as the Result. `List.Outcome.Navigate` carries both, and each screen uses the one its code uses.
- `organization.BackMsg`, `filepicker.ArtifactMsg` and `filepicker.LocalMsg` are not defined.
  - `Cmds.OrganizationBack` is handled like the other back messages.
  - The artifact id handed to the picker is treated as the `int64` case.
  - `LocalMsg` is treated as a message the picker ignores.

Under synchronous delivery of the commands' messages, the stack discipline holds: never empty, with the environment screen at the bottom and nowhere else (`App.DeliveryKeepsValid`). With asynchronous delivery it can break. Two esc keys handled before the first back message arrives pop two screens and empty the stack (`App.StaleBacksEmptyTheStack`).

## Model

| member | source | states |
|---|---|---|
| Text.HasPrefixIffAppend | process/main.go:180 | `strings.HasPrefix(s, prefix)` holds exactly when s is prefix followed by the rest of s |
| Text.Contains | process/main.go:216-223 | a string contains only substrings no longer than itself |
| Text.ContainsIffOccurs | process/main.go:216-225 | `strings.Contains(s, sub)` holds exactly when `sub` occurs at some position of `s` |
| Text.SuffixIsContained | process/main.go:225-226 | a path ending in a substring contains it, so a `.zip` file reaches the trace-viewer test |
| Text.Digits | process/main.go:169 | the decimal digits of an id are digits only, with no leading zero |
| Text.DigitsRoundTrip | process/main.go:169 | parsing the digits of n gives back n |
| Text.FormatInt | process/main.go:169 | the `%d` rendering is non-empty, starts with a minus sign exactly for negative ids, and has a digit after the sign |
| Text.FormatIntRoundTrip | process/main.go:169 | the `%d` rendering of an artifact id is inverted by parsing |
| Text.FormatIntInjective | process/main.go:169 | distinct artifact ids get distinct directory names |
| Text.FormatIntShape | process/main.go:169 | a rendered id is one path element: non-empty, no separator, not `.` or `..` |
| Paths.Split | process/main.go:177 | splitting at separators yields at least one part, none containing a separator |
| Paths.JoinSplit | process/main.go:177 | joining the parts of a path with separators gives the path back |
| Paths.SplitJoin | process/main.go:177 | splitting the join of separator-free parts gives the parts back |
| Paths.NormalizeAppend | process/main.go:177 | `Clean`'s lexical pass over two part lists is the pass over the first followed by the pass over the second |
| Paths.NormalizeClean | process/main.go:177 | `Clean`'s pass yields a clean stack: no empty or `.` parts, and `..` only as a leading run |
| Paths.NormalizeNames | process/main.go:177 | plain names are appended unchanged by `Clean`'s pass |
| Paths.NormalizeUps | process/main.go:177 | k `..` parts drop the last k names, or climb above the start when there are fewer |
| Paths.CleanStackSplits | process/main.go:177 | a clean stack is a run of `..` followed by plain names |
| Paths.NormalizeThroughClean | process/main.go:177 | cleaning a name first and then applying it to a base is the same as applying it directly |
| Paths.CleanShape | process/main.go:180 | `filepath.Clean` never returns an empty path, and its result is rooted exactly when the argument is |
| Paths.RenderShape | process/main.go:180 | writing a clean stack back as a path gives a non-empty path that starts with a separator exactly when it is rooted |
| Paths.JoinShape | process/main.go:177 | `filepath.Join(a, b)` is empty only when both are, and is rooted exactly when its first non-empty argument is |
| Paths.DirShape | process/main.go:191 | `filepath.Dir` is never empty and is rooted exactly when its argument is |
| Paths.EmptyNameRejected | process/main.go:177-180 | the zip-slip guard never accepts an empty name: it joins to dst itself, which has no separator after the cleaned dst |
| Paths.CleanPlainBase | process/main.go:180 | `Clean(dst)` is `dst` for a destination made of plain names |
| Paths.JoinIsTarget | process/main.go:177 | `filepath.Join(dst, name)` is the rendering of the cleaned target path |
| Paths.PrefixIffBelow | process/main.go:180 | `HasPrefix(p, base + "/")` holds exactly when p's parts extend base's parts strictly |
| Paths.ConfinedIffBelow | process/main.go:177-180 | the guard accepts an entry exactly when its joined path is a strict descendant of dst |
| Paths.ConfinedIsDescendant | process/main.go:177-183 | an accepted path is dst, a separator, then plain names |
| Paths.ConfinedIffReenters | process/main.go:177-180 | a name that climbs k levels is accepted exactly when it re-enters dst's last k parts and then goes deeper |
| Paths.TargetClimbsThenDescends | process/main.go:177 | every entry's target is dst climbed k levels followed by plain names |
| Paths.ReenterIffBelow | process/main.go:180 | climbing k levels then descending lands strictly below dst exactly when it re-enters dst's last k parts and goes deeper |
| Paths.NormalizeGrows | process/main.go:177 | a name without `..` never climbs, and goes deeper exactly when it holds a plain name |
| Paths.ClimbingOrEmptyRejected | process/main.go:180-183 | names that clean to only `..` parts, or to nothing (`""`, `.`), are rejected |
| Paths.DirDropsLast | process/main.go:191 | `filepath.Dir` of an accepted path is the path without its last name |
| Process.GetOrganizations | process/main.go:40-57 | a failed call ends the process; otherwise one Result per membership, in order, with the organization's id and login |
| Process.GetWorkflowRuns | process/main.go:89-106 | a failed call is returned as an error; otherwise one Result per run, in order, with id, name, display title and conclusion |
| Process.GetArtifacts | process/main.go:108-124 | a failed call ends the process; otherwise one Result per artifact, in order, with id and name |
| Process.Collect | process/main.go:61-76 | the pagination never returns an error: it returns the repositories or ends the process |
| Process.Requests | process/main.go:61-63 | the requests are for consecutive pages, each of 100 repositories sorted by full name |
| Process.StopPage | process/main.go:62-71 | the loop stops at a page no earlier than where it started, and no later than the first missing page |
| Process.GetRepositories | process/main.go:59-87 | requests pages 1, 2, … up to the stopping page; ends the process on a failed page; otherwise maps the collected repositories to Results in order |
| Process.RepositoryResults | process/main.go:78-84 | every collected repository becomes a Result with its id and name, in order |
| Process.PaginationConcatenates | process/main.go:61-76 | when pages 1..k-1 are non-empty and page k is empty, the result is those pages concatenated in order, and k pages are requested |
| Process.CollectFrom | process/main.go:61-76 | the same, starting from any page p ≤ k |
| Process.PaginationFailure | process/main.go:63-67 | a failed page k after k-1 non-empty ones ends the process after k requests |
| Process.FailFrom | process/main.go:63-67 | the same, starting from any page p ≤ k |
| Process.Dispatch | process/main.go:216-229 | at most three actions, each opening the path in the browser or running `playwright show-trace` on it |
| Process.Run | process/main.go:214-241 | the actions taken are `Dispatch(path)`; Run never returns an error; it ends the process exactly when "zip" occurs in the path and the trace viewer fails to start or to finish, and returns normally whenever the viewer finishes |
| Process.DispatchMatchesEach | process/main.go:216-229 | "webm", "png" and "zip" are tested independently: one action per match, the viewer runs iff "zip" occurs, and a path matching none does nothing |
| Process.ZipSuffixRunsTrace | process/main.go:225-226 | a `.zip` file runs `playwright show-trace <path>` |
| Process.SubstringNotSuffix | process/main.go:216-226 | `zipped.png` opens in the browser and also runs the trace viewer |
| Process.FirstCharAbsent | process/main.go:216 | a string in which the first character of sub never appears does not contain sub, so `zipped.png` fails the video test |
| Unzip.MkdirAll | process/main.go:185-193 | `os.MkdirAll` fails exactly when a prefix is a file; otherwise every prefix is a directory, existing entries are kept, and new entries are exactly missing prefixes |
| Unzip.OpenFile | process/main.go:195-198 | `os.OpenFile` with `O_CREATE` and `O_TRUNC` fails exactly on a directory or a missing parent directory; otherwise the target is an empty file (an existing one keeps its mode) and nothing else changes |
| Unzip.Dst | process/main.go:169 | the extraction directory is `output/` followed by a name that parses back to the artifact id |
| Unzip.ExtractEntry | process/main.go:177-210 | an entry is rejected iff the guard fails; a directory entry continues past a failed MkdirAll; an accepted file entry with unreadable contents always panics; a file entry that continues leaves the file with its bytes and the entry's mode (or the existing file's mode) under a directory parent |
| Unzip.CorruptEntryLeavesPartialFile | process/main.go:195-207 | when the target could be created, an unreadable entry panics after truncating it and leaves only the bytes copied before the failure |
| Unzip.Extract | process/main.go:176-211 | when the loop stops early, it stops at an entry the guard rejects |
| Unzip.Unzip | process/main.go:168-212 | a missing, directory or undecodable archive panics; otherwise the loop's outcome is `Extract` over the decoded entries into `output/<id>` |
| Unzip.StopAt | process/main.go:180-183 | at the first rejected entry extraction stops, keeping the earlier writes and reporting no error |
| Unzip.RejectedEntryStops | process/main.go:180-183 | an entry the guard rejects ends the loop with the file system as it was before that entry |
| Unzip.LaterEntriesIgnored | process/main.go:180-183 | entries after a rejected one have no effect |
| Unzip.AcceptedTarget | process/main.go:177-180 | an accepted entry's path is dst's parts followed by plain names |
| Unzip.BelowExtendsBase | process/main.go:180 | a path counted as below dst (dst and a separator, then plain names) extends dst's parts strictly |
| Unzip.MkdirAllGuarded | process/main.go:191 | creating a directory at or below dst changes nothing except paths strictly below dst made of plain names, and missing parents of dst |
| Unzip.ParentOfTarget | process/main.go:191 | the parent of an accepted path is at or below dst |
| Unzip.ExtractEntryGuarded | process/main.go:177-210 | one entry, whether it continues or panics, changes nothing except paths strictly below dst made of plain names, and dst's missing parents |
| Unzip.ExtractGuarded | process/main.go:176-211 | the whole loop changes nothing except paths strictly below dst made of plain names, and dst's missing parents |
| Unzip.DstParts | process/main.go:169 | `output/<id>` is two plain names whose prefixes are `output` and `output/<id>` |
| Unzip.AbsoluteNameIsConfined | process/main.go:177-180 | an absolute name `/rel` is accepted and written to `output/<id>/rel` |
| Unzip.TargetOfRootedName | process/main.go:177 | the leading separator of an absolute name is dropped by `Join` |
| Unzip.ExtractionStaysInside | process/main.go:168-212 | extracting any archive removes nothing; every path it changes starts with `output/<id>/` and is made of plain names only, so none climbs out through `..`, apart from creating the directories `output` and `output/<id>` |
| Unzip.StageArchive | process/main.go:141-165 | after the download the staging file holds exactly the response body |
| Unzip.DownloadArtifact | process/main.go:126-138 | never returns an error; ends the process when the URL, folder, file, body or archive fails; otherwise the file system is the result of extracting the downloaded archive |
| List.NewModel | tui/list/main.go:20-28 | a new list has the title, no items and no rows |
| List.BuildRows | tui/list/main.go:68-75 | row i has the i-th Result's name as title and id i, one row per Result |
| List.Update | tui/list/main.go:63-124 | Results replace the items and rows; a window size is recorded; enter outside filtering forwards the Result at the cursor row's id, or panics without one; esc when unfiltered goes back; everything else passes through |
| List.UpdateKeepsValid | tui/list/main.go:63-124 | the rows always describe the items |
| List.EnterOnRowSelectsItem | tui/list/main.go:65-107 | after Results arrive, enter on row k forwards the k-th Result |
| RepositoryScreen.NewModel | tui/repository/main.go:19-24 | starts loading, titled "Repositories", with no items |
| RepositoryScreen.Update | tui/repository/main.go:36-82 | Results end loading and replace the items; forward at i selects `items[i]` and forwards it; back starts loading and sends BackMsg, keeping the selection and items; other commands pass through |
| RepositoryScreen.UpdateKeepsConsistent | tui/repository/main.go:36-82 | the screen's items stay the list's items |
| RepositoryScreen.EnterSelectsRow | tui/repository/main.go:53-68 | enter on row k selects and forwards the k-th repository |
| WorkflowScreen.NewModel | tui/workflow/main.go:18-23 | starts loading, titled "Workflows", with no items |
| WorkflowScreen.Update | tui/workflow/main.go:35-79 | Results end loading and replace the items; forward at i forwards `items[i]` without touching loading; back starts loading and sends BackMsg; other commands pass through |
| WorkflowScreen.UpdateKeepsConsistent | tui/workflow/main.go:35-79 | the screen's items stay the list's items |
| ArtifactScreen.NewModel | tui/artifact/main.go:16-20 | titled "Artifacts", with no items |
| ArtifactScreen.Update | tui/artifact/main.go:32-74 | Results replace the items with no command; forward at i forwards `items[i]`; back sends BackMsg with items unchanged; other commands pass through |
| ArtifactScreen.UpdateKeepsConsistent | tui/artifact/main.go:32-74 | the screen's items stay the list's items |
| EnvironmentScreen.NewModel | tui/environment/main.go:15-36 | the items are exactly "Github" then "Local", and the list's rows carry those names |
| EnvironmentScreen.Update | tui/environment/main.go:46-76 | a window size goes to the list with no command; forward at i forwards `items[i]`; no back message is ever produced |
| EnvironmentScreen.ForwardsAnEnvironment | tui/environment/main.go:61-67 | what the screen forwards is "Github" or "Local" |
| OrganizationScreen.NewModel | tui/organization/main.go:18-23 | starts loading, titled "Organizations", with no items |
| OrganizationScreen.Update | tui/organization/main.go:33-63 | Results end loading and still go to the list; forward selects the list's Result and forwards it; the selection changes only on forward; no back message is produced |
| OrganizationScreen.EnterSelectsRow | tui/organization/main.go:33-54 | after the organizations arrive, enter on row k selects and forwards the k-th one |
| FilePickerScreen.NewModel | tui/filepicker/main.go:22-31 | depth 0, no file, no error, and only `.zip`, `.webm`, `.png` allowed |
| FilePickerScreen.CurrentDirectory | tui/filepicker/main.go:47-51 | the directory is `wd/output/<id>`, the extraction directory under wd |
| FilePickerScreen.Update | tui/filepicker/main.go:57-111 | an id sets the directory; esc at depth 0 clears the file and sends BackMsg, and nothing else does; enter adds one, esc removes one, a selection removes one; a disabled file sets the error to "<path> is not valid." and clears the file; an allowed file becomes the file and is sent; clearErrorMsg clears the error |
| FilePickerScreen.EnterOnFileKeepsDepth | tui/filepicker/main.go:68-108 | enter on a file, allowed or disabled, leaves the depth unchanged |
| FilePickerScreen.EnterThenEscReturns | tui/filepicker/main.go:66-81 | entering a directory and pressing esc returns to the same depth without leaving |
| FilePickerScreen.DepthNeverNegative | tui/filepicker/main.go:66-108 | when selections come only with enter, one update keeps the depth at least 0 |
| FilePickerScreen.DepthNeverNegativeOverRuns | tui/filepicker/main.go:66-108 | the same over any sequence of updates |
| FilePickerScreen.OpensExtractionDirectory | tui/filepicker/main.go:60-64 | an artifact id opens the picker on `wd/` followed by that artifact's extraction directory |
| Cmds.GetOrganizationsCmd | tui/cmds.go:30-40 | a failed call ends the process; otherwise one organizationDataMsg with one Result per membership |
| Cmds.GetRepositoriesCmd | tui/cmds.go:42-52 | a failed page ends the process; otherwise one repositoryDataMsg with the collected repositories in order |
| Cmds.GetWorkflowsCmd | tui/cmds.go:54-64 | always one message: errorMsg with the provider's error, or workflowDataMsg with the runs in order |
| Cmds.GetArtifactsCmd | tui/cmds.go:66-76 | a failed call ends the process; otherwise one artifactDataMsg with the artifacts in order |
| Cmds.DownloadArtifactCmd | tui/cmds.go:78-88 | on success the message is filepickerDataMsg carrying the same artifact id; no errorMsg is produced |
| Cmds.RunFileCmd | tui/cmds.go:90-101 | Run's actions are taken; a nil message follows, unless the trace viewer failed, which ends the process |
| ModeStack.GoForward | tui/main.go:21-23 | the stack is one longer, with v on top and every earlier entry unchanged |
| ModeStack.GoBack | tui/main.go:25-28 | needs a non-empty stack and removes exactly the top |
| ModeStack.GetCurrent | tui/main.go:30-32 | the current screen is on the stack, and it is exactly the screen `GoBack` removes |
| ModeStack.ForwardThenBack | tui/main.go:21-32 | after a push the current screen is the one pushed, and a pop gives back the original stack |
| ModeStack.BackThenForward | tui/main.go:21-32 | popping and pushing the former top back gives the original stack |
| App.NewModel | tui/main.go:53-65 | stack `[Environment]`, no loading message, fresh screens, and the stack discipline holds |
| App.GoForwardTo | tui/main.go:34-38 | pushes the screen, clears the loading message, and changes nothing else |
| App.PickerAnswer | tui/filepicker/main.go:91-98 | the picker selects only on enter |
| App.Route | tui/main.go:190-210 | with a loading message the spinner takes the message and nothing changes; the stack and the loading message are never changed by routing |
| App.Back | tui/main.go:131-172 | a back message pops the top, or panics on an empty stack |
| App.Resize | tui/main.go:179-187 | a window size is recorded by the list of every list screen, and nothing else of any screen changes; the file picker's model is unchanged; the stack and loading message are left alone |
| App.Update | tui/main.go:82-212 | every message without a case of its own is routed |
| App.DataPushes | tui/main.go:86-109 | each data message pushes its own screen whatever the top is, clears loading, and hands the payload to that screen, which stops loading |
| App.DownloadOpensExtraction | tui/main.go:106-109 | a finished download opens the file picker on the extracted artifact's directory |
| App.ForwardsStartLoading | tui/main.go:111-159 | forwards from the selection screens and "Github" set a loading message and start the next fetch, changing nothing else; the fetches take the selected organization and repository |
| App.LocalOpensPicker | tui/main.go:119-122 | "Local" pushes the file picker without loading |
| App.BacksPop | tui/main.go:131-172 | each back message pops exactly one screen and leaves the loading message alone |
| App.SelectedFileRuns | tui/main.go:165-168 | a chosen file is run and the stack is unchanged |
| App.LoadingShields | tui/main.go:190-194 | while loading, every message without a case of its own changes nothing |
| App.ErrorKeepsLoading | tui/main.go:82-194 | errorMsg during loading leaves the loading message in place |
| App.RoutesOnlyToCurrent | tui/main.go:195-210 | without loading, a routed message changes only the sub-model of the screen on top |
| App.LoadingClearedOnlyByPush | tui/main.go:34-212 | a shown loading message disappears only when a screen is pushed |
| App.PushKeepsValid | tui/main.go:21-23 | pushing any screen but the environment keeps the discipline |
| App.PopKeepsValid | tui/main.go:25-28 | popping a screen other than the environment keeps the discipline |
| App.DataKeepsValid | tui/main.go:86-109 | data messages keep the discipline |
| App.RoutedSends | tui/main.go:195-210 | with no load in progress, a routed message sends only a forward message, a chosen file or a back message, and a back message never from the environment screen |
| App.EnvironmentSends | tui/main.go:195-197 | the environment screen sends only its forward message, never a back message |
| App.PickerSends | tui/main.go:206-207 | the file picker sends only its back message or a chosen file |
| App.ListScreenSends | tui/main.go:198-205 | the organization, repository, workflow and artifact screens send only their own forward or back message |
| App.DeliveryKeepsValid | tui/main.go:82-212 | under synchronous delivery, an external message and the message its command sends keep the discipline |
| App.StaleBacksEmptyTheStack | tui/main.go:111-201 | from the start, choosing "Local" and then pressing esc twice in the picker before the back messages arrive empties the stack, and the next key panics |
| App.SelectionsChangeOnlyOnForward | tui/main.go:195-201 | the selected organization or repository changes only when that screen forwards, and then to the forwarded one |
| App.ChosenOrganizationIsFetched | tui/main.go:86-129 | after the organizations arrive, enter on row k fetches the k-th organization's repositories |

## Left out

- Network, HTTP, the GitHub client and the token are left out. Their answers are parameters: `Cmds.Provider`, and the `reply`/`pages` parameters of the `Process` methods.
- `DownloadArtifact`'s redirect limit (10) is ignored. The owner and repository only select the provider's answer.
- `GetOrganizations` and `GetArtifacts` make a single call, so only the first page of their listings is modelled, as in the code.
- The `archive/zip` decoding is left out. It is a parameter from the staged bytes to a sequence of entries, or to a failure of `zip.OpenReader`. Each entry carries the result of reading its contents: all of its bytes, or a failure after some prefix of them.
- Operating-system file creation is modelled lexically: a map from the path strings passed to the OS to directories or files.
  - The umask is not applied to permissions.
  - Symbolic links are not modelled.
  - The map does not enforce that every key's parent is a directory.
  - Failures other than a file in the way are not modelled.
- Unzip.OpenFile: `os.OpenFile` with `O_TRUNC` keeps an existing file's mode. The model keeps it too, but models no other open error.
- The bubbles list and file-picker widgets are left out. Their cursor, filter state, selection and directory navigation are inputs.
  - So `FilePickerScreen.Model.currentDirectory` is only the directory the picker was opened on.
  - `SetSize` and the frame-size subtraction are not modelled. Only the recorded width and height are.
- The spinner, every `View`, the lipgloss styles and `main` are rendering only.
- Command execution is not modelled. The bubbletea runtime runs commands asynchronously and batches them (`tea.Batch`, `tea.Tick`, `tea.Quit`). Here commands are values, and delivery is one message at a time.
- Browser opening and subprocess execution are modelled as emitted `Process.Action` values.
- `log.Fatal` and `panic` are a terminal outcome (`Exited`, `Terminated`, `Crash`). Process exit is not modelled.
- Nil pointers from the GitHub client (`org.Organization` nil) are not modelled. The `Get*` accessors are taken to return the field or the zero value.
- The file picker's `clicksAwayFromRoot` is a Go `int`. It is unbounded here, since reaching its 64-bit bounds needs 2^63 key presses.
- Cmds.DownloadArtifactCmd: states only that success names the same artifact and that no error message arises. The full relation between the provider's answers and the file system is stated on `Unzip.DownloadArtifact`.
- Process.Page: every page after the last one given is empty, so the listing is assumed finite. A provider that never returns an empty page makes the source's `GetRepositories` loop forever; `Process.GetRepositories` does not model that.
- Output to standard output is left out. This includes the "invalid file path" line unzip prints before it returns on a rejected entry.
- Paths: the separator is fixed to '/'. The source uses `os.PathSeparator`, so on Windows its guard and `Join` behave differently.
- Paths: entry names are sequences of characters. In Go, zip names are byte strings and need not be valid UTF-8; the model does not represent invalid encodings.
