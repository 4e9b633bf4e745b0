# Verification of the nixos-operator controllers

A Dafny model of the parts of the operator whose correctness is hard to see from one
function: a destructive install and a decommission driven against an API server with
optimistic concurrency, a sticky allocator, a pod-template compiler with its nested
encodings, and a run history that outlives the Jobs it is read from. To
verify the project with Dafny 4.11, run `dafny verify dfyconfig.toml` in this directory.

## What is modelled

**The life of a NixosConfiguration** (`Lifecycle*.dfy`, `Reconciler.dfy`, `Ownership.dfy`).
`Lifecycle` is a transition system: the committed objects (configuration, Machine, install
job, day-two cron, decommission job), the worker with its next API call and its working
copy, and history counters that are written and never read. A label is one API call with
its reply (`Ok`, `Conflict`, `Fail`, or `Lost`: the server acted but the caller sees an
error), a crash, or an action of the environment; a run is any sequence of labels.
`LifecycleInvariant` proves an inductive invariant, `LifecycleTheorems` the safety
theorems over all runs, and `LifecycleTermination` that every pass ends and that removal
ends. `LifecyclePasses` adds an observer who sees the calls with what they send, their
answers, the committed objects and the copies the worker has read, and who takes notes on
the running pass; `LifecycleEvidence` states with these notes
why a finalizer goes and what the last write does to the spec, and `LifecycleTally` bounds
what the observer counts in a run, without the history counters. `LifecycleLimits` holds
the runs, from the initial state, on which the code does less than its documentation says.
`Reconciler` has the same code in the controller's own form, a class whose methods change
the working copy and the server's objects call by call, and proves each method to be a run
of the transition system under any replies and any interference. `LifecycleOutcomes`
tabulates what a whole error-free pass does to every object and proves that its calls add
up to it. `Ownership` has the choice of a Machine's owner and joins it with the life cycle
of all configurations of one Machine. (`LifecycleCalls` only names the step function of each
call.)

**Selection** (`Selection.dfy`, `NodeGroups.dfy`, `NodeGroupLaws.dfy`, with `Names.dfy` and
`NameSets.dfy`): the members of a node group and the loop over the groups of a NixCluster.

**Rendering** (`ShellQuote.dfy`, `Commands.dfy`, `NixString.dfy`, `RevisionKey.dfy`,
`Paths.dfy`, `PodTemplate.dfy`, `PodTemplateLaws.dfy`, `PodRun.dfy`, with `Upserts.dfy`, `MountLists.dfy`,
`Pods.dfy`, `Texts.dfy`): quoting is proved against the token recognition of the
POSIX.1-2017 Shell Command Language (sections 2.2.1 to 2.2.3, 2.3, 2.6.3), Nix escaping
against the lexer of double-quoted strings in the Nix Reference Manual (section "String
literal"), and the renderer against a specification that is idempotent and keeps everything
the operator does not own. `PodRun` lets the rendered init containers run one after the
other over the shared volumes, and shows what the build gets to see.

**Injected files** (`FileInjection.dfy`, `DoubleQuotes.dfy`, `InjectionText.dfy`,
`Checkouts.dfy`, `Sources.dfy`, `InjectedFiles.dfy`, `InjectionLimits.dfy`): the generated
script is taken as the text a shell is given. The text is read by the same shell as above,
and `Checkouts` runs what comes out, `mkdir`, `cp` and `git add` by their documented
behaviour: an argument that starts with a hyphen is read as options (POSIX.1-2017, Utility
Conventions, section 12.2), a source is opened segment by segment through the mounted
volumes, and git refuses names of its own directory. The outcome is then determined for
every list of accepted files, and `InjectionLimits` has the accepted files that are not
delivered.

**Run history** (`RunHistory.dfy`): the class of a NixCronJob's status, its reconcile, and
the health of a NixCluster derived from it.

## Assumptions

- Reconciles of one object are serialised and reads are linearizable; a status or metadata
  write is accepted exactly when the object still has the resource version that was read.
- Nobody but the controller removes its finalizer, creates its children or writes its
  status, the environment adds no finalizers of its own, and a configuration's name is not
  reused. Everything else may happen between any two calls: spec edits, deletion, Machine
  changes, jobs finishing or changing their report, children deleted and removed.
- Object names are unique in a namespace.

## Where code and documentation differ

- The install is documented to be retried at most `MaxInstallRetries` times. The count is
  committed only by the status write that ends the pass; when that write is lost the
  failure is forgotten, and a run can install any number of times
  (`LifecycleLimits.InstallCapIsNotAbsolute`). The cap holds in every run in which no pass
  forgets a failure and nobody else deletes the child (`LifecycleTally.InstallCapHolds`).
- A decommission is documented to be skipped only when it is impossible. Any error of the
  create, even a transient one, finalizes at once (`LifecycleLimits.TransientErrorFinalizes`).
- The cap of decommission runs is not absolute either: a pass that saw its child succeed
  deletes it first, and when the write that removes the finalizer fails the next pass
  starts over (`LifecycleLimits.DecommissionCapIsNotAbsolute`). The cap holds in every run
  in which no pass is cut short between a terminal outcome and that write and nobody else
  deletes the child (`LifecycleTally.DecommissionCapHolds`).
- The write that removes the finalizer also writes the spec of the working copy. If the
  pass has committed a decommission count, the copy has taken the fresh resource version
  but kept the spec it read first, so an edit accepted between that first read and the
  count is undone (`LifecycleLimits.FinalizeUndoesAnEdit`). This is the only case: no other
  call of the controller ever changes the committed spec
  (`LifecycleEvidence.SpecChangesExactlyHere`).
- A Machine is documented to be claimed by the first matching group. Only selected Machines
  are claimed; the others stay available to later groups
  (`NodeGroupLaws.FirstMatchDoesNotClaim`).
- Vacancies are described in the design as filled lowest first; the code goes upward from
  the highest member first (`Selection.UpwardBeforeLowest`).
- Group names are documented to be unique, but nothing enforces it; two groups of one name
  that want one Machine each and match the same two swap their members at every reconcile
  (`NodeGroupLaws.TwinsSwap`).
- A destination path that is accepted may still name a directory; the script then succeeds
  with the content elsewhere (`InjectionLimits.AcceptedMayNameDirectory`).
- The API documents paths without a `..` segment; accepted is any path that never leads out
  (`Paths.AcceptedIffStaysBelow`).
- Path validation is said to make double quoting safe. It does keep a path from meaning
  anything to the shell, but not to the commands: the script fails for an accepted path that
  starts with a hyphen and goes on, such as `-x`, and for one through a `.git` directory, such
  as `.git/config` (`InjectionLimits.AcceptedMayNotFit`). With keys without a slash these
  paths and missing contents are the only reasons to fail (`InjectedFiles.SucceedsIff`).
- Keys of references are not validated. The shell takes a key as it stands exactly if it is
  inert (`DoubleQuotes.ReadLiterallyIff`); a key such as `$(echo k)` is read as `k`
  (`DoubleQuotes.SubstitutionIsRun`). A missing key with a slash, such as `../1/k`, may open
  another object's content, and the script succeeds with it
  (`InjectionLimits.SlashKeyReadsElsewhere`); `InjectedFiles.AsDeclaredIff` says exactly when.

## Model

| member | source | states |
|---|---|---|
| LifecycleInvariant.NextKeeps | internal/controller/nixosconfiguration_controller.go:96-429 | every API call with any reply, every crash and every environment step keeps the invariant that ties committed status, working copy, children and history together |
| LifecycleInvariant.RunKeeps | internal/controller/nixosconfiguration_controller.go:96-429 | the invariant holds after any run |
| LifecycleTheorems.InstallNeverRepeated | internal/controller/nixosconfiguration_controller.go:195-213 | once completion is committed, no continuation of the run reverts it or creates another install child |
| LifecycleTheorems.DayTwoWaitsForInstall | internal/controller/nixosconfiguration_controller.go:172-182 | while a full install is asked for throughout, a day-two child is created only after completion is committed |
| LifecycleTheorems.InstallAccounting | internal/controller/nixosconfiguration_controller.go:215-243 | every install child is live or deleted exactly once; every counted failure is committed, lost or still unsaved, and deletions never exceed counts; creations are at most 1 + committed retries + lost counts + external deletions; committed retries never exceed the cap |
| LifecycleTheorems.DecommissionAccounting | internal/controller/nixosconfiguration_controller.go:335-415 | every decommission child is accounted for; each failed one that was deleted is paid for by a committed retry; at most three beyond external deletions and unfinished finalizations |
| LifecycleTheorems.ChildrenNeedFinalizer | internal/controller/nixosconfiguration_controller.go:106-116 | in every run children of any kind are created only while the committed configuration carries the finalizer, and decommission children only if it is being deleted |
| LifecycleEvidence.FinalizerGate | internal/controller/nixosconfiguration_controller.go:305-429 | in every run the finalizer disappears only by the finalizing write of a deleted configuration's pass, and in that very pass the worker read a configuration without a flake, a missing Machine, a refusing answer, a succeeded child, or the retries used up |
| LifecyclePasses.NotesAgree | internal/controller/nixosconfiguration_controller.go:305-429 | over every run the notes an observer takes on the running pass agree with where the worker is, why it finalizes, which spec it holds and what it has not committed |
| LifecycleEvidence.SpecChangesExactlyHere | internal/controller/nixosconfiguration_controller.go:420-460 | no call changes the committed spec except the accepted finalizing write of a pass that committed a count, exactly if the spec committed then was no longer the one first read; it restores that older spec |
| LifecycleTheorems.ExhaustedHolds | internal/controller/nixosconfiguration_controller.go:222-234 | an install that has failed for good is neither deleted nor recreated by any run |
| LifecycleTheorems.HeldIsFixpoint | internal/controller/nixosconfiguration_controller.go:222-234 | in the terminal Degraded state no run of reconciles, with any answers and crashes, changes an object or a count |
| LifecycleTermination.EveryPassEnds | internal/controller/nixosconfiguration_controller.go:96-429 | whatever is answered and however the environment interleaves, a pass is over after boundedly many calls, retry loops included |
| LifecycleTermination.RoundProgress | internal/controller/nixosconfiguration_controller.go:335-415 | a removal round without API errors lowers the lexicographic measure of remaining retries and child stage |
| LifecycleTermination.RemovalEnds | internal/controller/nixosconfiguration_controller.go:305-429 | whatever the decommission runs report, the finalizer is gone after as many rounds as the measure |
| LifecycleTermination.SevenRoundsSuffice | internal/controller/nixosconfiguration_controller.go:305-429 | seven rounds always suffice |
| LifecycleTermination.RoundsAreRun | internal/controller/nixosconfiguration_controller.go:305-429 | the rounds are a run of the system of bounded length |
| LifecycleLimits.InstallCapIsNotAbsolute | internal/controller/nixosconfiguration_controller.go:118-127 | for every n there is a run with n + 1 installs, no committed retry and no external deletion |
| LifecycleTally.TallyAgrees | internal/controller/nixosconfiguration_controller.go:187-429 | over every run the history counters equal what an observer counts from labels and committed objects: children that appear, passes that forget a failure, passes cut short, external deletions |
| LifecycleTally.InstallBound | internal/controller/nixosconfiguration_controller.go:215-243 | install children that appear are at most 1 + committed retries, and at most 1 + the cap, plus the passes that forgot a failure and the external deletions |
| LifecycleTally.InstallCapHolds | internal/controller/nixosconfiguration_controller.go:215-243 | in a run in which no pass forgets a failure and nobody else deletes the child, at most 1 + the cap install children appear |
| LifecycleTally.DecommissionBound | internal/controller/nixosconfiguration_controller.go:335-429 | decommission children that appear are at most three, and at most 1 + committed retries, plus the passes cut short after a terminal outcome and the external deletions |
| LifecycleTally.DecommissionCapHolds | internal/controller/nixosconfiguration_controller.go:335-429 | in a run in which no pass is cut short after a terminal outcome and nobody else deletes the child, at most three decommission children appear |
| LifecycleLimits.DecommissionCapIsNotAbsolute | internal/controller/nixosconfiguration_controller.go:357-375 | for every n there is a run from the start with n + 1 decommission children, no committed retry and no external deletion |
| LifecycleLimits.FinalizeUndoesAnEdit | internal/controller/nixosconfiguration_controller.go:420-460 | a run from the start in which any accepted edit of the spec is undone by five answered calls of the controller |
| LifecycleLimits.TransientErrorFinalizes | internal/controller/nixosconfiguration_controller.go:342-351 | a run from the start with one failed create and every other call answered: the finalizer is gone, no decommission child was ever created, and the Machine still names the configuration as the controller wrote it |
| LifecycleLimits.LostCreateOrphansTheRun | internal/controller/nixosconfiguration_controller.go:342-351 | a run from the start in which only the answer to the create is lost: the child runs on without the finalizer |
| LifecycleOutcomes.LivePass | internal/controller/nixosconfiguration_controller.go:96-301 | an error-free pass over a live configuration comes, for every state of all objects, to the outcome of a table: blocked and suspended, install requested, counted, given up or completed, the child ensured and running, its health reported, the Machine written |
| LifecycleOutcomes.RemovalPass | internal/controller/nixosconfiguration_controller.go:305-429 | so does one over a deleted configuration: the child stopped, the Machine cleared, the decommission requested, counted or given up, the finalizer removed or kept |
| LifecycleOutcomes.RepliesAct | internal/controller/nixosconfiguration_controller.go:96-486 | a call that fails or conflicts changes no object; one whose answer is lost changes what an answered one does |
| LifecycleOutcomes.FailureLeads | internal/controller/nixosconfiguration_controller.go:96-486 | what a failed call leads to, for every call: the final status write, the end of the pass, a mere log entry, or finalizing |
| LifecycleOutcomes.ConflictsAreRetried | internal/controller/nixosconfiguration_controller.go:444-486 | the retry closures give a conflicting write five attempts on fresh reads, then report the conflict |
| Reconciler.Controller.Reconcile | internal/controller/nixosconfiguration_controller.go:96-130 | a whole reconcile, under any replies and interference, continues the recorded run from idle to idle and makes at least one call; the run is exactly what the script holds |
| Reconciler.Controller.RunStateMachine | internal/controller/nixosconfiguration_controller.go:135-182 | the state machine makes the calls of the transition system and leaves it before the final status write with the same working copy |
| Reconciler.Controller.ReconcileInstall | internal/controller/nixosconfiguration_controller.go:187-251 | the install branch, with its outcome switch, follows the transition system |
| Reconciler.Controller.MarkFullDiskInstallCompleted | internal/controller/nixosconfiguration_controller.go:470-486 | the retry loop either commits completion and syncs the copy, or leaves the copy unchanged |
| Reconciler.Controller.ReconcileDayTwo | internal/controller/nixosconfiguration_controller.go:253-301 | the day-two branch makes the calls of the transition system, whose passes LivePass describes |
| Reconciler.Controller.ReconcileRemoving | internal/controller/nixosconfiguration_controller.go:305-415 | the removal follows the transition system to idle on every path |
| Reconciler.Controller.BumpOnRemoveRetries | internal/controller/nixosconfiguration_controller.go:444-460 | the retry loop commits the count and syncs the copy, or gives up |
| Reconciler.Control | internal/controller/nixosconfiguration_controller.go:96-429 | repeated reconciles continue the run by at least one call each and keep the invariant and the accounting on the committed objects; a completed install stays completed and no further install child is created |
| Ownership.MachineOwner | internal/controller/nixosconfiguration_controller.go:503-531 | the loop returns the name of the configuration created first for the Machine, on equal times of the one whose name comes first in the dictionary, and another's name exactly if the asker is outranked |
| Ownership.LeadsIffOldest | internal/controller/nixosconfiguration_controller.go:524-531 | the configuration that passes the gate is exactly the oldest, said without the comparison the code uses |
| Ownership.LeaderIsUnique | internal/controller/nixosconfiguration_controller.go:524-531 | the owner does not depend on the order of the list or on who asks |
| Ownership.LeaderIffNotOutranked | internal/controller/nixosconfiguration_controller.go:135-149 | a configuration owns its Machine exactly if nobody passes the gate before it |
| Ownership.LoserIsSuspended | internal/controller/nixosconfiguration_controller.go:660-674 | a reconcile without API errors leaves a loser's day-two child suspended or absent |
| Ownership.RemovedIsStopped | internal/controller/nixosconfiguration_controller.go:678-688 | a removal pass without API errors stops it |
| Ownership.OwnerRuns | internal/controller/nixosconfiguration_controller.go:253-257 | an error-free reconcile makes the owner's day-two child run, whether it was missing, suspended or running |
| Ownership.OneRunningChild | internal/controller/nixosconfiguration_controller.go:135-168 | once every configuration of a Machine has been reconciled without API errors, in any order and any number of times, at most one day-two child runs, that of the oldest |
| Ownership.ExactlyOneRuns | internal/controller/nixosconfiguration_controller.go:135-182 | and if the last of those reconciles of the oldest finds the Machine reachable, exactly one runs: its own |
| Selection.SelectGroupMembers | internal/controller/nixcluster_controller.go:271-334 | the algorithm returns the specified members, which depend on the previous ones only as a set, and flags a shortage exactly if there are too few candidates |
| Selection.ChosenIffProper | internal/controller/nixcluster_controller.go:257-334 | the selection is the one set of the right size that drops the highest former members only when there are too many and fills vacancies upward first, then lowest first |
| Selection.RetainsTheMost | internal/controller/nixcluster_controller.go:287-305 | no selection of that size keeps more former members |
| Selection.UpwardBeforeLowest | internal/controller/nixcluster_controller.go:307-330 | of any three candidates with the middle one kept, the highest fills the vacancy, not the lowest |
| Selection.SelectionIsFixpoint | internal/controller/nixcluster_controller.go:271-334 | selecting again from the same candidates reproduces the selection |
| Selection.MembersStick | internal/controller/nixcluster_controller.go:287-305 | a former member that is still a candidate stays, as long as there are not too many |
| Selection.MembersMeaning | internal/controller/nixcluster_controller.go:271-334 | the returned list is sorted, drawn from the candidates and as long as count and candidates allow |
| NodeGroups.MatchingMachines | internal/controller/nixcluster_controller.go:241-254 | the loop collects the specified candidates |
| NodeGroups.CandidatesMeaning | internal/controller/nixcluster_controller.go:241-254 | the candidates are exactly the unclaimed Machines that match, strictly sorted |
| NodeGroups.SelectGroups | internal/controller/nixcluster_controller.go:143-183 | the group loop computes the specified plan, including when it refuses |
| NodeGroups.NodeFilePath | internal/controller/nixcluster_controller.go:345-359 | a member gets a node file exactly if its name is one safe path segment, and where |
| NodeGroupLaws.GroupsPartition | internal/controller/nixcluster_controller.go:143-183 | groups are disjoint, members match their own selector, and sizes are those count and unclaimed matches dictate |
| NodeGroupLaws.StatusesReport | internal/controller/nixcluster_controller.go:143-182 | a group desires its count, or without one all it got; the cluster is underprovisioned exactly if some group has fewer members than its count; the total is the sum |
| NodeGroupLaws.NodeFilesMatchMembers | internal/controller/nixcluster_controller.go:166-183 | node files are in bijection with members, carry the host of the listed Machine of that name and the group's values, and have distinct paths |
| NodeGroupLaws.NodeFileConfigures | internal/controller/nixcluster_controller.go:345-374 | every node file is the fixed text with four literals that evaluate to the cluster, the member's name, the group's values or the empty object, and the member's host |
| NodeGroupLaws.NodeFilesAreValid | internal/controller/nixcluster_controller.go:185-188 | the check of all node files after the loop never fails |
| NodeGroupLaws.NodeFilesFit | internal/controller/nixcluster_controller.go:340-356 | every node file is one the injection delivers: its path is read as no option and refused by no command, and its content has a key without a slash |
| NodeGroupLaws.StepSucceedsIff | internal/controller/nixcluster_controller.go:145-175 | a group is refused exactly if its selector does not parse or a selected name is not a safe segment |
| NodeGroupLaws.ReconcileIsFixpoint | internal/controller/nixcluster_controller.go:130-183 | with unique group names a repeated reconcile on unchanged Machines reproduces every group, file and flag |
| NodeGroupLaws.SelectionSticks | internal/controller/nixcluster_controller.go:130-183 | through any sequence of Machine changes a selected Machine that stays a candidate of its group stays selected |
| NodeGroupLaws.TwinsSwap | internal/controller/nixcluster_controller.go:130-141 | two groups of one name that want one Machine each, and any two Machines, the only ones that match both: their members swap at every reconcile |
| NodeGroupLaws.UnselectedStaysAvailable | internal/controller/nixcluster_controller.go:143-156 | a Machine that no earlier group selects is a candidate of every later group it matches, whatever it matched before |
| NodeGroupLaws.FirstMatchDoesNotClaim | internal/controller/nixcluster_controller.go:143-156 | of any two Machines that match two groups, the first of which wants one, the higher becomes a member of the second |
| ShellQuote.QuoteLex | internal/controller/nixrender.go:163-165 | a quoted NUL-free argument adds exactly its own characters to the shell's current word |
| ShellQuote.JoinRoundTrip | internal/controller/nixrender.go:154-160 | tokenizing a joined argument list yields exactly the arguments |
| Commands.WrapExecutes | internal/controller/nixrender.go:471-476 | wrapping a command in openssh does not change what is executed |
| Commands.BuildAndPushExecutes | internal/controller/nixrender.go:478-487 | both quoting levels are undone: the build runs, then the push, each with its exact arguments |
| Commands.InstantiateRuns | internal/controller/nixrender.go:467-487 | the instantiate container runs one build with the flags on what was asked, and exactly with a key and a push URL then a copy of the same installables to that URL |
| Commands.RunIsReadIff | internal/controller/nixrender.go:167-178 | read as nix reads it, the run command gives nix the flags and the installable and the program exactly its arguments, whatever they look like, if and only if neither flags nor installable are `--` |
| Commands.AppRuns | internal/controller/nixrender.go:167-178 | that is what the application container executes, through the shell or not |
| Commands.WrapReachesIff | internal/controller/nixrender.go:471-476 | openssh is in reach exactly of the commands that ask for it |
| NixString.EscapeIsOnePass | internal/controller/nixcluster_controller.go:376-386 | the three replacements in their order equal one pass over the text |
| NixString.EscapeRoundTrip | internal/controller/nixcluster_controller.go:376-386 | read as a double-quoted Nix string the escaped text closes at its own end, starts no antiquotation, and gives the original back exactly if it has no carriage return |
| NixString.NodeFileCarries | internal/controller/nixcluster_controller.go:365-374 | a node file is the fixed text with four string literals and nothing else, and these evaluate to the cluster, the Machine, the values and the host |
| NixString.EscapedLiteralsCarried | internal/controller/nixcluster_controller.go:365-374 | whatever stands before them, the two escaped literals evaluate to the values and the host |
| RevisionKey.DecodeEncode | internal/controller/nixrender.go:95-106 | the length-prefixed encoding of any fields is read back exactly |
| RevisionKey.PreImageInjective | internal/controller/nixrender.go:95-106 | different revisions, run targets or argument lists are hashed from different texts |
| RevisionKey.EqualKeysCollide | internal/controller/nixrender.go:95-108 | equal keys for different inputs are a collision of the truncated digest |
| RevisionKey.KeyIsLabel | internal/controller/nixrender.go:92-108 | with a hexadecimal digest the key is a valid label value of fourteen characters, marked as a revision |
| Paths.AcceptedIffStaysBelow | internal/controller/nixrender.go:198-215 | accepted are exactly the non-empty, relative, safe paths no prefix of which leads out of the tree |
| Paths.AcceptedStaysInWorkspace | internal/controller/nixrender.go:409-415 | joined under the workspace and cleaned, an accepted path is the workspace or the cleaned path below it |
| FileInjection.AdditionalFilesInjection | internal/controller/nixrender.go:248-316 | the loop generates the specified volumes, mounts and script, one volume per distinct reference |
| Sources.GeneratedVolumesProvide | internal/controller/nixrender.go:258-277 | each referenced object is found under its own volume name, and names differ |
| Sources.ObjectsDistinct | internal/controller/nixrender.go:258-277 | no reference is given two volumes |
| Sources.EnsureAdditionalFilesConfigMap | internal/controller/nixworkload.go:175-204 | success is reported exactly if the read is answered and nothing is to be changed, the write is accepted, or the deletion finds it gone, and then the ConfigMap holds one key per inline file, by index, or is gone; another controller's ConfigMap is never overwritten; on an error the state is named |
| Sources.InlineDataKeys | internal/controller/nixworkload.go:179-184 | the operator's ConfigMap has a key for every inline file, by index, and no other |
| Sources.SourceIsDeclared | internal/controller/nixrender.go:286-294 | a source operand whose key has no slash, opened through mounts, volumes and ConfigMap, yields the declared content, and nothing if there is none |
| Sources.SlashKeyOpensOther | internal/controller/nixrender.go:286-291 | a key that leads up and down again opens a key of another mounted object, for any two objects |
| DoubleQuotes.ReadLiterallyIff | internal/controller/nixrender.go:281-302 | between double quotes the shell reads a text as itself exactly if it is inert: no quote, dollar or backquote, no backslash that escapes |
| DoubleQuotes.DirnameLex | internal/controller/nixrender.go:283 | the quoted substitution of an inert path is one word, its parent as `dirname` prints it, and empty if the path is read as options |
| DoubleQuotes.SubstitutionIsRun | internal/controller/nixrender.go:284-291 | a key that is a substitution is not read as itself but as the output of its command |
| InjectionText.ScriptReads | internal/controller/nixrender.go:279-302 | where everything quoted is inert, the shell reads the script's text as exactly the intended commands with their exact arguments, line by line |
| Checkouts.DirnameWays | internal/controller/nixrender.go:283 | for every relative path the directories made for its printed parent are exactly those on the way to it |
| InjectedFiles.ScriptRuns | internal/controller/nixrender.go:279-302 | whatever the pod holds, a run of the text fails if some path does not fit or some source opens nothing, and otherwise writes what the sources open and stages exactly the destinations |
| InjectedFiles.ScriptWritesDeclared | internal/controller/nixrender.go:279-302 | a run of the text writes every declared content at its path, the last one for a path winning, and nothing else, and stages exactly the destinations; it fails exactly if some declared content does not exist or some path starts with a hyphen and goes on, or leads through a .git directory |
| InjectedFiles.SucceedsIff | internal/controller/nixrender.go:279-302 | for accepted files in nothing's way and keys without a slash, a run succeeds if and only if all contents exist and all paths fit |
| InjectedFiles.AsDeclaredIff | internal/controller/nixrender.go:284-291 | for any inert keys, the run does as declared except exactly when all paths fit and every source opens something although a declared content does not exist |
| InjectedFiles.LastDeclarationWins | internal/controller/nixrender.go:282-295 | of several files for one path the last one is there in the end |
| InjectedFiles.OtherFilesStay | internal/controller/nixrender.go:282-295 | files that are nobody's destination stay as they were |
| InjectedFiles.DeliveredIffUnobstructed | internal/controller/nixrender.go:279-302 | a run of the text that gets through makes every destination a file exactly if no destination is a directory and no way leads through a file |
| InjectionLimits.AcceptedMayNameDirectory | internal/controller/nixrender.go:198-215 | an accepted path for which the run of the whole text succeeds while the content lies, and is staged, elsewhere |
| InjectionLimits.AcceptedMayNotFit | internal/controller/nixrender.go:198-227 | two accepted paths, one with a leading hyphen and one in .git, for which the run fails though nothing is in the way and the content exists |
| InjectionLimits.SlashKeyReadsElsewhere | internal/controller/nixrender.go:284-291 | a run that succeeds with another object's content for a key that does not exist |
| PodTemplate.RenderPodTemplate | internal/controller/nixrender.go:394-584 | the renderer computes the specified template |
| PodRun.InitsInOrder | internal/controller/nixrender.go:489-559 | the operator's init containers come first, as bootstrap, fetch-source, inject-files exactly if there are files, and instantiate, all with the workload's image; the user's own follow in order |
| PodRun.RenderedPodBuilds | internal/controller/nixrender.go:394-559 | run in their order over the shared volumes, the init containers fill the store, fetch exactly the wanted revision with its credentials, inject the declared files, and then run exactly one build in that checkout and directory, with the key in reach if there is one; they fail exactly if the injection does |
| PodTemplateLaws.TemplateIsStamped | internal/controller/nixrender.go:418-430 | annotation and labels carry the composite revision and who manages the template |
| PodTemplateLaws.StoreVolumeRendered | internal/controller/nixrender.go:600-636 | the store volume is in memory, on a claim or on disk as asked for |
| PodTemplateLaws.AppHasItsName | internal/controller/nixrender.go:400-403 | the application container is the one of the given name, or "app" |
| PodTemplateLaws.AppIsStamped | internal/controller/nixrender.go:561-581 | its image, directory, configuration, mounts and ssh options are as specified: the user's options stay, the builder's name no identity |
| PodTemplateLaws.AppHasOpenssh | internal/controller/nixrender.go:463-476 | it has openssh in reach exactly if there are ssh options for it |
| PodTemplate.UpsertVolume | internal/controller/nixstore_controller.go:428-436 | the first volume of the name is replaced, or one is appended |
| PodTemplate.UpsertEnv | internal/controller/nixrender.go:673-681 | the first variable of the name is replaced, or one is appended |
| PodTemplate.SetContainer | internal/controller/nixrender.go:589-597 | the first container of the name is replaced, or one is appended |
| PodTemplate.FilterOutContainers | internal/controller/nixrender.go:638-650 | the named containers are removed and the others keep their order |
| MountLists.UpsertMounts | internal/controller/nixrender.go:684-699 | mounts are merged at the last position of their path and sorted stably by path |
| MountLists.MergeIdempotent | internal/controller/nixrender.go:684-699 | merging twice equals merging once, for every list including repeated paths |
| MountLists.MergeKeepsOthers | internal/controller/nixrender.go:684-699 | mounts at other paths survive in number and order |
| MountLists.MergeShowsAll | internal/controller/nixrender.go:684-699 | the merged list is sorted by path and every added mount is the last one at its path |
| MountLists.MergeReplacesLast | internal/controller/nixrender.go:684-699 | at an added mount's path the last one listed gives way to it and earlier ones stay |
| Upserts.UpsertAllIdempotent | internal/controller/nixstore_controller.go:428-436 | upserting distinct names twice equals doing it once, for every list including repeated names |
| PodTemplateLaws.RenderIdempotent | internal/controller/nixrender.go:394-584 | rendering a rendered template again changes nothing, for every template |
| PodTemplateLaws.RenderKeepsOthers | internal/controller/nixrender.go:394-584 | volumes, init containers, containers, labels, annotations and other fields that are not the operator's survive in order |
| PodTemplateLaws.AppKeepsUserParts | internal/controller/nixrender.go:561-581 | the application container keeps the user's other fields, environment, ssh options and mounts |
| PodTemplateLaws.RenderProvidesFiles | internal/controller/nixrender.go:536-544 | the rendered pod provides the volumes the injection mounts, whatever volumes the user brought |
| PodTemplateLaws.OwnMountsResolve | internal/controller/nixrender.go:432-557 | every mount the operator adds resolves in the rendered pod to its own volume, even where the user's template has volumes of the same names |
| PodTemplateLaws.RenderedInjectionWrites | internal/controller/nixrender.go:304-315 | rendered into any template, the text in the injection container's command, run with that container's mounts and the pod's volumes, writes and stages the declared files, and fails exactly as stated above, whatever else is in the container |
| PodTemplateLaws.RenderedAppRuns | internal/controller/nixrender.go:561-566 | the rendered application container hands nix the flags and the installable, and the program exactly its arguments |
| RunHistory.NixCronJob.LastFinishedRuns | internal/controller/nixcronjob_controller.go:272-306 | the loop returns the latest owned failure and success, never earlier than those known |
| RunHistory.NixCronJob.Reconcile | internal/controller/nixcronjob_controller.go:64-134 | phase, conditions, revisions and times after a reconcile are the specified function of those before and of what was found, on every early return |
| RunHistory.TimesAreLatest | internal/controller/nixcronjob_controller.go:227-306 | over any run, however Jobs are pruned, the stored times are the latest failure and success ever observed |
| RunHistory.EverSeenMeaning | internal/controller/nixcronjob_controller.go:272-349 | the history is exactly what committed reconciles observed: owned Jobs whose first condition of the kind holds, at their completion or transition, and the CronJob's own record |
| RunHistory.VerdictIsHistorical | internal/controller/nixcronjob_controller.go:328-336 | "the latest run failed" holds exactly if it does over the whole history |
| RunHistory.TimesMoveForward | internal/controller/nixcronjob_controller.go:275-284 | both times only move forward |
| RunHistory.ForeignJobsAreIgnored | internal/controller/nixcronjob_controller.go:339-349 | Jobs of other owners make no difference |
| RunHistory.FailureShows | internal/controller/nixcluster_controller.go:603-664 | a history that ends in failure, with no infrastructure stall, makes the cluster Degraded and every member Failed |
| RunHistory.HealthIsHistorical | internal/controller/nixcluster_controller.go:603-664 | once a reconcile has seen the child's runs, phase of the cluster and status of its members are failed exactly if the whole history ends in a failure, and healthy otherwise, whatever came before and however Jobs were pruned |
| RunHistory.SeenReports | internal/controller/nixcronjob_controller.go:227-262 | a reconcile that sees the runs reports active Jobs, revision, phase and all conditions |
| RunHistory.UnseenShows | internal/controller/nixcronjob_controller.go:82-108 | one that sees none keeps the history's verdict and shows its own stall: blocked with members as before, failed, or suspended with what the history says |
| RunHistory.NoCronJobShows | internal/controller/nixcronjob_controller.go:227-232 | without a CronJob yet the status progresses and an earlier stall stays |

## Left out

- Stale informer caches and overlapping leaders: outside the assumption of linearizable reads and one worker per object.
- Deleting a configuration and creating another of the same name: the model has one incarnation.
- NixosConfiguration status fields that only report (resolved revision, condition messages, timestamps): the conditions are represented by phase and the Applied flag.
- RunHistory.NixCronJob.Reconcile: condition reasons and messages, the polling time, the workload reference and the schedule time are not kept.
- LifecycleEvidence.FinalizerGate: a refusing answer is every error of the create, as in the code.
- Reconciler.Controller.Reconcile: a crash is a run that stops between two calls, so scripts hold none; crashes in the middle of runs are covered by the transition system.
- Ownership.OneRunningChild: the set of configurations is fixed, and each visit is a whole error-free reconcile; interleavings inside a reconcile are covered by the transition system only per configuration.
- NodeGroups.SelectGroups: label selectors are arbitrary predicates on labels; parsing them is not modelled, only that it can fail.
- NodeGroupLaws.ReconcileIsFixpoint: needs unique group names, which the API documents.
- NixString.NodeFileCarries: cluster and Machine names are plain, as object names are; Go's quoting of other characters is not modelled.
- InjectedFiles.ScriptWritesDeclared: symbolic links, submodules and permissions of the checkout are not modelled.
- Checkouts.Do: the GNU options --help and --version, which print a text and succeed, are failures here like every other option; of a mounted volume's hidden directories only `..data` is there.
- Sources.SlashKeyOpensOther: a key that leads back into the checkout or the nix store opens nothing here; other files of the container are the pod's `image`.
- Sources.EnsureAdditionalFilesConfigMap: the owner reference a write sets is not kept.
- PodTemplate.RenderPodTemplate: the text of the fetch script and the assembled NIX_CONFIG are inputs, and the lists of a template are values, so sharing of Go slices is not modelled.
- PodRun.RenderedPodBuilds: what a fetch brings is a function of its location, revision and credentials; the fetch script's own commands are not followed.
- ShellQuote.Lex: the only expansion is the substitution of a `dirname` or `echo` with one operand between double quotes; other expansions, redirections, comments and operators yield no tokens, since the generated texts contain none.
- The builder and system mismatch check, conditions, events and the suspension of the converge cron.
- NixStore, NixBuilder, NixDeployment, NixStatefulSet and NixJob controllers: they only build objects and map statuses.
- SSH and git access, key generation and SHA-256, which stays an uninterpreted function.
