# Verified model of the guest-runtime tools

A Dafny project that models the stateful core of this repository and proves what its callers rely
on. `dafny verify dfyconfig.toml` checks all of it. Nothing here executes the tools.

## What is modelled

**Atomic artifact output** (`Fs.dfy`, `Pending.dfy`, `Export.dfy`). A file system of inodes,
directories and a descriptor table; one method per system call, each of which may fail; and, before
every call, other processes that may do anything to the world except write into a private directory,
to a mode-000 inode made here, or to a file whose only link is in a private directory. `Kernel.company`
says who else runs: nobody, others that never step between an identity check and the call it guards,
or others everywhere. The ghost flags say whether a call failed for a reason of its own (`faulted`)
and whether it was one that clean-up depends on (`unclean`). `log` holds what the process did to
directory entries, with the mode it asked for and the inode it moved, `audit` what it was told by stat
calls and which attributes it set.

**Release publication and deletion** (`GitHub.dfy`, `Remote.dfy`, `Publisher.dfy`, `Progress.dfy`,
`Versions.dfy`, `Latest.dfy`, `Publication.dfy`, `Preview.dfy`, `Collect.dfy`). The remote store is a
state machine; a request fails, is refused, is applied and answered, or is applied with its answer
lost. Being cut off after a request is the failure of the next one, so a contract that holds for
every pattern of faults holds for every cut. `Moved` is what runs may have done between two states;
`Resumable` is the exact set of states from which an undisturbed run ends public; `Deletable` is its
counterpart for deletion. Which rows a release may hold, which version is higher and what must not be
deleted is stated apart from the functions that the scripts' code uses. `faulted` says that some request failed, `broken` that an upload left a
partial asset. `log` holds the requests, what was read, and the checks made outside the store.

**Process supervision** (`ProcessTree.dfy`, `Supervisor.dfy`). A table of processes in which anybody
forks, exits (its children go to the nearest subreaper above), waits and sets subreaper flags, in any
order and number between two calls of the supervisor, the readings of a scan among them. `looks` holds the table at each poll of the
command, a `Cleaning` the scans of both signal stages with what was sent for each.

**Binary formats** (`Bytes.dfy`, `Rpm.dfy`, `RpmWriter.dfy`, `Bundle.dfy`, `BundleBuild.dfy`). The
source RPM reader with Python's own `int(…, 16)` and slices, against its writer; the aligned bundle
with every byte of its ZIP trailer (PKWARE APPNOTE sections 4.3.7, 4.3.9, 4.3.12 and 4.3.16), against
its independent verification. Digest and gzip are parameters.

**Address translation and archive trees** (`GuestMemory.dfy`, `Archive.dfy`).

## Findings

- `inheritFileGroup` moves the reserved name without an identity check (pending_linux.go:254): a file
  another process put there in time leaves the destination directory and is then unlinked from
  staging (`PendingArtifacts.ForeignFileCanBeMoved`). Exactly: what leaves is of this process if and
  only if the name still denoted the created inode, or another one of this process, when it was moved
  (`InheritFileGroup`, in every company). Likewise the identity check at line 359 and the removal at
  line 360 are two steps (`PendingArtifacts.ForeignDirectoryCanBeRemoved`).
- In the clean-up of `inheritFileGroup` a failed *stat* leaves the reserved entry behind as surely as
  a failed unlink (`PendingArtifacts.FailedStatLeavesName`). Exactly: undisturbed, both directories end
  as specified if and only if none of the calls that clean-up depends on failed (`InheritFileGroup`).
- A broken upload that leaves a partial ("starter") row makes every later `publish` run refuse: after
  such a run the state is not resumable, and it is otherwise (`Publications.Runs`, `Progress.StuckStays`).
- `rpm_sources` undoes `rpm_bytes` exactly for bodies and names below 2^32 (`RpmWriter.RoundTripIff`):
  the writer's `%08x` grows beyond eight digits.
- The end marker of a cpio stream is accepted with a declared name length that is too large when the
  stream ends right behind it: for one, 121 bytes with length 12 (`RpmWriter.TooLongNameAccepted`).
  Exactly which streams are accepted says `Rpm.AcceptedIff`, in which `Rpm.TrailerAt` is the end marker.
- `descendants` reads one process after the other while the tree changes. When a process exits after its
  parent was read, its children are adopted and the scan misses them (`ProcessTree.MissedByScan`); if no
  scan follows, they are left without a kill signal (`Supervisor.MissedByKill`). A scan does list every
  descendant that keeps its line of parents meanwhile, among them every child of the supervisor
  (`ProcessTree.UnmovedAreListed`, `Supervisor.LeftAreKilled`), and whether it is empty is exact
  (`Supervisor.LastScan`), so a status of 0 is not affected.
- `supervise` can report an exit that came after the deadline (`Supervisor.LateRun`). Exactly: an exit
  is reported at or after the deadline if and only if, before any stop signal was seen, some look came
  after both and none between the two, whichever came first (`Supervisor.LateExitIff`).
- `pread_virt` translates the first address only. It is right if and only if the range stays in one
  kernel mapping, on one side of the hole and in a chain of regions contiguous in the file and in the
  process (`GuestMemory.RightReadIff`; `HoleBreaksReads` and `SeamBreaksReads` are the ways to fail).
- The check `prefix > 1028` in `verify_bundle` is implied by those before it (`Bundle.PrefixCheckImplied`).

## Model

| member | source | states |
|---|---|---|
| `PendingArtifacts.PendingArtifact.MakeStaging` | cmd/flatten-ctl/pending_linux.go:70-93 | within ten names either a fresh private directory is listed under `name` and recorded for clean-up, or nothing is; no entry of anyone else is touched |
| `PendingArtifacts.PendingArtifact.RecordStaging` | cmd/flatten-ctl/pending_linux.go:79-88 | only a directory of this user that grants nothing to others is recorded as owned |
| `PendingArtifacts.PendingArtifact.OpenStaging` | cmd/flatten-ctl/pending_linux.go:94-112 | success means that the open descriptor is on the very directory recorded, whatever others did to its name in between |
| `PendingArtifacts.PendingArtifact.RestoreMode` | cmd/flatten-ctl/pending_linux.go:117-143 | a mode that gives the owner full access is left alone; otherwise the directory stays private and success means that the owner has full access again; the group is inherited through the parent exactly when the set-group-ID bit was there and is not, and then the file system has dropped it from what was asked for |
| `PendingArtifacts.PendingArtifact.CreateImage` | cmd/flatten-ctl/pending_linux.go:144-149 | the image is a new file of this process, alone under `image` in the staging directory |
| `PendingArtifacts.PendingArtifact.TransferAttributes` | cmd/flatten-ctl/pending_linux.go:156-182 | success leaves the image with the owner, group, mode and ACL of the file to be replaced, and empty; exactly these were set, in the source's order, and the owner only where it differed |
| `PendingArtifacts.PendingArtifact.TransferAccess` | cmd/flatten-ctl/pending_linux.go:164-176 | mode and ACL only, an ACL to be dropped before the mode and one to be kept after it; content and owner stay |
| `PendingArtifacts.PendingArtifact.RecordFile` | cmd/flatten-ctl/pending_linux.go:183-186 | the identity recorded for later checks is that of the reserved image |
| `PendingArtifacts.PendingArtifact.Verify` | cmd/flatten-ctl/pending_linux.go:295-310 | in any company: success exactly when both names were looked up, the staging name first, and denoted the recorded inodes at those moments, unless a call failed; a staging name that denoted anything else is a refusal |
| `PendingArtifacts.PendingArtifact.Publish` | cmd/flatten-ctl/pending_linux.go:328 | the rename puts exactly the reserved inode under the output name, and is the only event |
| `PendingArtifacts.PendingArtifact.Commit` | cmd/flatten-ctl/pending_linux.go:312-329 | in any company: success means that just before the rename the staging name denoted the recorded directory, the image entry the reserved inode and the output name nothing or a regular file, that it was not cancelled, and that one logged move put the reserved inode with its bytes at the output name; a replaced name and an output name seen to be irregular are refusals, and every refusal changes nothing; only a cancellation, one of these two or a failed call refuses |
| `PendingArtifacts.PendingArtifact.Vet` | cmd/flatten-ctl/pending_linux.go:313-323 | the three lookups of a commit in order, with the worlds they were made in: what success found, and that nothing else refuses but a failed call |
| `PendingArtifacts.PendingArtifact.ReserveInParent` | cmd/flatten-ctl/pending_linux.go:223-237 | a new empty mode-000 file of this process under a name that was free, or nothing |
| `PendingArtifacts.PendingArtifact.Take` | cmd/flatten-ctl/pending_linux.go:254-257 | what the move brought into staging is the entry `inherited`, and it is whatever the reserved name denoted in the world of the move, whoever made it |
| `PendingArtifacts.PendingArtifact.CheckTaken` | cmd/flatten-ctl/pending_linux.go:258-269 | only our inode, seen by a logged stat with one link and mode 000 inside staging, passes; nothing is granted before |
| `PendingArtifacts.PendingArtifact.Dress` | cmd/flatten-ctl/pending_linux.go:270-283 | the new inode has the template's mode and ACL |
| `PendingArtifacts.PendingArtifact.SwapIn` | cmd/flatten-ctl/pending_linux.go:287-289 | the new inode takes the name `image`; the template is gone |
| `PendingArtifacts.PendingArtifact.Install` | cmd/flatten-ctl/pending_linux.go:284-290 | the template is closed first; a failed swap leaves the moved file dressed and staging as it was |
| `PendingArtifacts.PendingArtifact.Finish` | cmd/flatten-ctl/pending_linux.go:258-290 | everything after the move: success names the new inode `image`, failure leaves the move undoable |
| `PendingArtifacts.PendingArtifact.UndoTaken` | cmd/flatten-ctl/pending_linux.go:249-251 | exactly the moved entry is unlinked from staging; undisturbed, it stays exactly if a call that clean-up depends on failed |
| `PendingArtifacts.PendingArtifact.UndoReserved` | cmd/flatten-ctl/pending_linux.go:247-248 | the reserved entry is unlinked only while it is ours; undisturbed, it stays exactly if a call that clean-up depends on failed |
| `PendingArtifacts.PendingArtifact.Exchange` | cmd/flatten-ctl/pending_linux.go:242-292 | the move with its clean-up: undisturbed, the directories end as specified exactly if no call that clean-up depends on failed |
| `PendingArtifacts.PendingArtifact.InspectAndExchange` | cmd/flatten-ctl/pending_linux.go:238-292 | the same from the stat on; a failed stat, which leaves no note, closes the descriptor and touches nothing else |
| `PendingArtifacts.PendingArtifact.InheritFileGroup` | cmd/flatten-ctl/pending_linux.go:207-293 | all or nothing: undisturbed, both directories end as specified (as they were, or with the new inode as the image) exactly if no call that clean-up depends on failed; in every company, what left the destination directory is what the reserved name denoted then, and of this process exactly if that was the created inode or one made before; every attribute set was set on the new inode, after a logged stat had shown it with one link and mode 000; success has the template's mode and ACL; undisturbed and without a failed call it succeeds |
| `PendingArtifacts.PendingArtifact.CloseFile` | cmd/flatten-ctl/pending_linux.go:331-338 | the file descriptor is closed once and forgotten, even when close reports an error |
| `PendingArtifacts.PendingArtifact.Close` | cmd/flatten-ctl/pending_linux.go:340-370 | all descriptors of the artifact are closed, each once; a second call does nothing; no failed call goes unreported; with each check and its unlink as one step only own inodes leave the parent; undisturbed exactly the staging entry leaves it |
| `PendingArtifacts.Secure` | cmd/flatten-ctl/pending_linux.go:62-190 | failure closes everything and leaves the parent's entries; success leaves the image reserved |
| `PendingArtifacts.Reserve` | cmd/flatten-ctl/pending_linux.go:28-191 | failure leaves no descriptor open, success exactly three; the parent gains the staging entry only; left alone, failed clean-up or not, no entry that was there is changed, and only temporary names that were free and that the run made are new; in any company only names the run made are moved away or removed; in any company a reserved image was asked for with mode 0600 without an output, with the mode of the file it replaces, or with 0666, and in the end carries owner, group, mode and ACL of the file it replaces, or else grants nobody execution, and without an output nothing to others than the owner; alone, whatever is moved or removed from the parent was made here, and with checks and the calls they guard as one step, whatever is removed; undisturbed and without a failed call it succeeds |
| `PendingArtifacts.SwapEffect` | cmd/flatten-ctl/pending_linux.go:287 | effect of the swap on the staging directory alone |
| `PendingArtifacts.PublishEffect` | cmd/flatten-ctl/pending_linux.go:328 | effect of the commit on the two directories and on the link counts |
| `PendingArtifacts.OthersKeepAll` | cmd/flatten-ctl/pending_linux.go:16-19 | whatever others do, a private directory keeps its entries |
| `PendingArtifacts.ForeignFileCanBeMoved` | cmd/flatten-ctl/pending_linux.go:254 | in a world where the template is staged, the descriptors are open and the reserved name denotes the created file, another process may put its own file there, and the move then takes that file out of the destination directory |
| `PendingArtifacts.ForeignDirectoryCanBeRemoved` | cmd/flatten-ctl/pending_linux.go:358-360 | in a world where an artifact is about to remove its staging directory and the check passes, another process may put its own empty directory under the name, and the removal then takes that |
| `PendingArtifacts.ReadyToMove` | cmd/flatten-ctl/pending_linux.go:242-254 | an artifact in the first of these worlds, in any company, meets what the move asks for |
| `PendingArtifacts.ReadyToRemove` | cmd/flatten-ctl/pending_linux.go:340-360 | an artifact in the second meets what the removal asks for |
| `PendingArtifacts.FailedStatLeavesName` | cmd/flatten-ctl/pending_linux.go:238-240 | a run of `InspectAndExchange` with nobody else, in the world right after the file was created: if the stat fails, the descriptor is closed and the reserved name stays |
| `Exports.Produce` | cmd/flatten-ctl/export.go:93-127 | the source that was opened is closed, and before that the writer if there was one, for every pattern of faults; a nil result means that the image holds the whole prepared bytes and that no call failed |
| `Exports.ReadBack` | cmd/flatten-ctl/export.go:128-152 | in any company: standard output and ingest get exactly the image, and neither gets anything unless the staging name was seen to denote the recorded directory; a name that did not is a refusal; a failed copy leaves a first part of the image |
| `Exports.Seal` | cmd/flatten-ctl/export.go:153-163 | the descriptor is closed; in any company success means that both names were checked again and denoted the recorded inodes, that the context was not seen cancelled and no call failed, and a staging name that did not is a refusal |
| `Exports.Complete` | cmd/flatten-ctl/export.go:164-176 | no entry of the destination directory is touched but by the commit, which comes after its own check and with the name seen free or regular; after it only the key can still fail |
| `Exports.FinishArtifactOutput` | cmd/flatten-ctl/export.go:181-188 | staging is closed in every case and a committed output is never reported as failed; in any company and whatever fails, closing makes, moves or removes no entry of the destination directory but the staging directory under its name, and left alone every other entry is as it was |
| `Exports.WriteImage` | cmd/flatten-ctl/export.go:104-120 | the image holds the whole prepared bytes, and the duplicate descriptor is closed even after a failed write |
| `Exports.ToStdout` | cmd/flatten-ctl/export.go:93-127 | without an artifact the source is closed exactly if it was opened; success means that standard output got the image and no call failed |
| `Exports.Deliver` | cmd/flatten-ctl/export.go:128-176 | the phases after production, or a proper prefix of them; nothing is delivered before a first check, nothing committed before a second and a third |
| `Exports.ThroughArtifact` | cmd/flatten-ctl/export.go:93-187 | the phases performed, in order, against the one full trace, clean-up included: whichever entry of the destination directory is watched, but for the name of the staging directory, nothing else happened to it; left alone the output names the file exactly if it was committed and no other entry changed, whether or not clean-up failed |
| `Exports.WritePreparedExport` | cmd/flatten-ctl/export.go:62-177 | for every pattern of faults, clean-up included, and in any company: nil exactly when all phases of the full trace happened in order, otherwise a proper prefix with at most one failed ingest; these phases, of which the commit's rename is the only one that changes an entry, are all the run did to any entry of the destination directory but those under temporary names it made itself, and of these it unlinked only its own inodes if each check and the call it guards are one step; standard output got a first part of what it is to get, and nothing before the first check; a run that changes the destination checked staging and image three times and saw the destination free or regular, and "not a regular file" is reported only when it was seen not to be; after the destination changed only the key can be the error; no descriptor is left; left alone, clean-up failed or not, a committed output names the file, and every other entry there was is there still; in any company the one rename that commits puts there an inode with exactly the image and the owner, group, mode and ACL of the file it replaces, and without one an inode asked for with mode 0666; a context seen cancelled commits nothing; a terminal, or a refused output path, changes nothing; undisturbed, an error has a failed call, an irregular destination or a terminal behind it |
| `Exports.ReserveAndExport` | cmd/flatten-ctl/export.go:80-187 | the same for a run that needs an artifact |
| `Exports.ClosedOnce` | cmd/flatten-ctl/export.go:97-122 | in every outcome the source is closed as often as it was opened, at most once, and before any ingest |
| `Exports.TameHasNoPhase` | cmd/flatten-ctl/export.go:86 | reserving and cleaning up make, move and remove no entry of the destination directory but those under their own temporary names, and move nothing into it |
| `Requests.Remote.Peel` | scripts/release-publisher.py:120-131 | alone: succeeds exactly when the object leads to that commit through at most fifteen tag objects without a repetition; also with other writers a success names the commit the object leads to |
| `Requests.Remote.TagTarget` | scripts/release-publisher.py:120-131 | the commit a tag names, none for a missing tag |
| `GitHub.ResolvesUnique` | scripts/release-publisher.py:120-131 | a reference leads to at most one commit |
| `GitHub.SeenIsRedundant` | scripts/release-publisher.py:123-127 | where the hash fixes the kind, the repetition check refuses nothing that the depth limit would accept |
| `GitHub.IsShaIff` | scripts/release-publisher.py:125 | a commit is named by forty digits out of 0-9a-f |
| `Publisher.RemoteAssets` | scripts/release-publisher.py:134-152 | accepts exactly lists in which every row is finished and has the size and digest of an expected asset, names and numbers are distinct, and all identities known so far agree; a refusal records nothing, known identities never change |
| `Publisher.ExactlyIff` | scripts/release-publisher.py:134-152 | complete and accepted, row by row, is the same as this: every expected name is held by exactly one row, which has its size, its digest and the state uploaded, there is no other row, and the numbers are positive and distinct |
| `Publisher.SpoiledIff` | scripts/release-publisher.py:134-148 | refused is the same as some row without an expected name, with another size, digest or state, without a number, or with the name or number of another row |
| `Publisher.RecordedIdsDiffer` | scripts/release-publisher.py:137-145 | recorded identities have pairwise distinct numbers |
| `Publications.Publication.Observe` | scripts/release-publisher.py:134-152 | across the calls of a run the recorded identities only grow, none changes, and a refusal leaves them |
| `Progress.MovedTransitive` | scripts/release-publisher.py:221-274 | what runs may do adds up over any number of runs |
| `Progress.SafeAfter` | scripts/release-publisher.py:221-274 | after any cut runs: the tag is absent or names the commit, a release made public has exactly the expected assets, no row was replaced, no name came twice, other tags and releases are as before |
| `Progress.StuckStays` | scripts/release-publisher.py:142-144 | a release of the tag with a row of another size, digest or state than the plan has for its name, such as a partial upload, or with any other odd row keeps it, and every later run refuses |
| `Progress.UploadStep` | scripts/release-publisher.py:251-259 | one more row keeps the state resumable exactly when it is a whole upload of the validated bytes |
| `Progress.PublicStep` | scripts/release-publisher.py:260-267 | the undraft of a filled draft ends the publication |
| `Publications.Publication.Inspect` | scripts/release-publisher.py:227-236 | nothing is changed, and without a fault it succeeds exactly in the resumable states |
| `Publications.Publication.Begin` | scripts/release-publisher.py:221-236 | the local check of the bundle comes first and is the first thing in the log; nothing is changed, and without a fault it succeeds exactly in the resumable states |
| `Publications.Publication.InspectRelease` | scripts/release-publisher.py:229-232 | an existing release is taken up exactly when it is acceptable; a public one then carries exactly the expected assets |
| `Publications.Publication.Existing` | scripts/release-publisher.py:227-232 | at most one release has the tag and it can be taken up; a public one that is taken up was listed and carries exactly the expected assets |
| `Publications.Publication.EnsureTag` | scripts/release-publisher.py:240-244 | the tag names the commit afterwards, or the run stops; whoever else writes, the last reading showed it; the tag is created only right after the checks of the preview line and of the bytes |
| `Publications.Publication.PlaceTag` | scripts/release-publisher.py:242-244 | the tag is asked for at the commit, only when it is missing, and read afterwards |
| `Publications.Publication.EnsureDraft` | scripts/release-publisher.py:245-250 | there is exactly one release of the tag, a draft, and its rows are recorded |
| `Publications.Publication.UploadOne` | scripts/release-publisher.py:252-259 | one missing name less; the state stays resumable exactly unless the upload broke off; what is uploaded is the validated file, right after the bytes were compared |
| `Publications.Publication.CheckUploaded` | scripts/release-publisher.py:255-259 | whoever else writes, success means that the release read after an upload had its number, the plan's tag, the new name and no row that is not recorded |
| `Publications.Publication.UploadMissing` | scripts/release-publisher.py:251-259 | every missing name is requested at most once and no other, and each of them when the loop succeeds; measure: the missing names |
| `Publications.Publication.Ready` | scripts/release-publisher.py:260-265 | whoever else writes: the release was read with its number, as a draft with the notes whose rows are exactly the expected assets, then the tag, which led to the commit, and then the preview line was checked |
| `Publications.Publication.Unveil` | scripts/release-publisher.py:266-267 | the one request that makes the draft public |
| `Publications.Publication.Confirm` | scripts/release-publisher.py:268-272 | whoever else writes, success means one logged reading of the release with its number, public, with the notes and exactly the expected assets, after which the bytes were compared |
| `Publications.Publication.GoPublic` | scripts/release-publisher.py:260-272 | whoever else writes, the undraft request is sent only right after these two readings, and success means that the release was read afterwards, public, with the notes and exactly the validated assets; alone it ends with the release public and complete |
| `Publications.Publication.Fill` | scripts/release-publisher.py:245-272 | from the tag on: draft, uploads and the step to a public release |
| `Publications.Publication.Advance` | scripts/release-publisher.py:240-272 | from a resumable start to a public release, whose last reading is that of `Confirm` |
| `Publications.Publication.MakePublic` | scripts/release-publisher.py:221-272 | one run: a state that is not resumable is refused untouched, any other ends public when nothing fails and stays resumable unless an upload broke off |
| `Publications.Publication.Publish` | scripts/release-publisher.py:221-274 | the whole run with the Latest update. Whoever else writes: what is reported public was read in this run, not as a draft, and holds for every expected name exactly one row, with the expected size and digest and the state uploaded, and no other row; every undraft comes right after such a reading, one of the tag, and the preview check; every request has the tag, commit, notes and files of the plan and comes right after the checks it needs, and none follows a failed one. Alone: a release of the tag that holds a row with another size, digest or state is left untouched and the run fails; what may have changed at any cut, and exactly when it ends public |
| `Publications.Runs` | scripts/release-publisher.py:221-274 | any number of runs, each cut anywhere: safe throughout, and resumable until an upload breaks off; a release with an odd row is never touched |
| `Publications.Serialized` | scripts/release-publisher.py:221-274 | any serialized publications leave a trace to which the Latest theorem applies |
| `Versions.ParsePrinted` | scripts/release-publisher.py:170-172 | the parser undoes a printer on versions of unbounded size |
| `Versions.PrintParsed` | scripts/release-publisher.py:170-172 | the printer undoes the parser, so no two tags share a version |
| `Versions.StableIffPrinted` | scripts/release-publisher.py:15-16 | a tag is Stable exactly when some version prints it |
| `Versions.HigherIsAbove` | scripts/release-publisher.py:199 | the comparison of two triples: at the first of major, minor and patch where they differ, the first has the larger number |
| `Versions.TagsOrdered` | scripts/release-publisher.py:198-199 | in this direction and with this precedence the Stable tags of a unit are in a strict total order |
| `Versions.LeadingZeroCollides` | scripts/release-publisher.py:15 | with leading zeros two spellings would share a value |
| `LatestPointer.HigherExists` | scripts/release-publisher.py:197-201 | finds a published Stable of the unit that is above the version, by that relation, exactly when there is one |
| `LatestPointer.CompareDecides` | scripts/release-publisher.py:202-215 | when the current Latest is refused, gives way, or stays |
| `LatestPointer.Check` | scripts/release-publisher.py:190-195 | goes on exactly for a public Stable whose tag still names the commit, itself on main |
| `LatestPointer.Decide` | scripts/release-publisher.py:197-215 | moves exactly when it may; complains exactly about an unreadable Latest |
| `LatestPointer.Move` | scripts/release-publisher.py:216-218 | Latest names the release afterwards |
| `LatestPointer.UpdateLatest` | scripts/release-publisher.py:187-218 | Latest moves only to a published Stable which no published Stable of its unit is above, from none, from one of its unit that it is above, or from one of another unit published strictly earlier; it always moves when it may; complaints exactly when the state is not sound; it is moved right after the commit was seen to be on main |
| `LatestPointer.SecondUpdateKeeps` | scripts/release-publisher.py:208-210 | a repeated update changes nothing |
| `LatestPointer.LatestNeverDecreases` | scripts/release-publisher.py:187-218 | along any trace in which public releases stay, once a version was Latest it is never above a later Latest of its unit |
| `Previews.FilteredName` | scripts/delete-preview.py:51-56 | the architecture filter of line 75 selects exactly the x86_64 package |
| `Previews.RuntimePackages` | scripts/delete-preview.py:51-56 | the two archives of the runtime unit by name |
| `Previews.KernelPackages` | scripts/delete-preview.py:51-56 | and those of the kernel unit |
| `Previews.ComponentPackages` | scripts/delete-preview.py:51-56 | and those of the other units |
| `Previews.Complete` | scripts/delete-preview.py:59-76 | judges exactly the lists in which every row, lists of checksums apart, is one of the two packages with a positive number and size, a SHA-256 digest and the state uploaded or starter, without a name or number twice; complete exactly when public preview, x86_64 package present and every such row uploaded |
| `Previews.KnownIff` | scripts/delete-preview.py:59-73 | what the loop checks on the filtered rows is that of the whole list |
| `Previews.SameVerdict` | scripts/delete-preview.py:59-76 | equal flags and equal multisets of rows get the same verdict, refusals included |
| `Previews.IdentityIsMultiset` | scripts/delete-preview.py:86-89 | two asset identities are equal exactly when the lists are equal as multisets |
| `Previews.AtMostIff` | scripts/delete-preview.py:88 | the order of the sort: a prefix first, otherwise the smaller character where two texts differ |
| `Previews.OrderedUnique` | scripts/delete-preview.py:88 | a multiset has one sorted listing |
| `Collecting.FirstLook` | scripts/delete-preview.py:103-110 | the readings, and a Preview built from the given commit |
| `Collecting.ReleaseFor` | scripts/delete-preview.py:28-33 | the one release of the tag, or a refusal for several |
| `Collecting.MayGo` | scripts/delete-preview.py:111-118 | exactly the eligible releases |
| `Collecting.SecondLook` | scripts/delete-preview.py:120-124 | the second listing and reading agree in every identity field, the asset multiset and the reference |
| `Collecting.Look` | scripts/delete-preview.py:103-124 | alone and without a fault it succeeds exactly for the deletable states; nothing to delete is said after the first readings |
| `Collecting.RemoveTag` | scripts/delete-preview.py:129-135 | the tag request comes only after a listing without a release and a reading of the same reference; success means that the tag was seen to be gone, and nothing follows a failed request |
| `Collecting.DeleteTag` | scripts/delete-preview.py:79-83 | one request, and success means that the tag was read and gone right after it; nothing follows a failed request |
| `Collecting.RemoveRelease` | scripts/delete-preview.py:125-128 | one release request; when it succeeds the release is looked for, and success means that it was seen to be gone |
| `Collecting.Remove` | scripts/delete-preview.py:125-136 | release first, then tag |
| `Collecting.Collect` | scripts/delete-preview.py:92-136 | with other writers every deletion is guarded by the readings, and a release that is deleted was listed as a draft or prerelease, not immutable, and for an incomplete collection as unfinished; success means that what was deleted was seen to be gone right after; alone it deletes the Preview or refuses untouched, exactly as the state is deletable, leaves a release of that protected kind untouched, and reports what was there |
| `Collecting.Calls` | scripts/delete-preview.py:92-136 | any number of calls cut anywhere touch nothing else and keep a deletable Preview deletable |
| `Collecting.OthersUntouched` | scripts/delete-preview.py:92-136 | a finished deletion took away exactly the release and the tag |
| `Collecting.GuardedWhole` | scripts/delete-preview.py:119-135 | the shape of the requests of a whole call |
| `Collecting.GuardedSpares` | scripts/delete-preview.py:112-118 | a guarded deletion is never one of a release that is no Preview or immutable, nor, for an incomplete collection, of a finished one |
| `Supervisor.Host.Descendants` | test/e2e/lib/process.py:14-22 | the scan as it goes on while others do: every reading shows exactly the children there were at its moment, of the same process that was listed, and the list is what was read, children before their parent; no number read names another process in the end |
| `ProcessTree.ListedAreBelow` | test/e2e/lib/process.py:14-22 | whatever a scan lists and is still there in the end is a descendant then |
| `ProcessTree.UnmovedAreListed` | test/e2e/lib/process.py:14-22 | a scan lists every descendant that, like its ancestors, keeps its parent while the scan goes on |
| `ProcessTree.StillScan` | test/e2e/lib/process.py:14-22 | if nothing happens meanwhile: exactly the proper descendants, once each, children before parents |
| `ProcessTree.EmptyScan` | test/e2e/lib/process.py:14-22 | a scan is empty exactly when there were no descendants when it began |
| `ProcessTree.MissedByScan` | test/e2e/lib/process.py:14-22 | a scan during which a process exits and its child, a descendant before and after, is not listed |
| `ProcessTree.RunAges` | test/e2e/lib/process.py:52-57 | in every interleaving who has exited stays so, and only the exit of its parent gives a process another one |
| `ProcessTree.StepEvolves` | test/e2e/lib/process.py:52-57 | fork, exit, wait or a change of subreaper flag by anybody keeps every descendant of the supervisor a descendant |
| `ProcessTree.RunEvolves` | test/e2e/lib/process.py:52-57 | so does every interleaving of such steps |
| `ProcessTree.AdopterBelow` | test/e2e/lib/process.py:52-54 | orphans below the supervisor are adopted below it |
| `ProcessTree.BelowSomeChild` | test/e2e/lib/process.py:33-39 | without children there are no descendants |
| `ProcessTree.SiblingsApart` | test/e2e/lib/process.py:22 | the subtrees of two children are disjoint |
| `Supervisor.Host.SignalChildren` | test/e2e/lib/process.py:25-30 | every number the scan listed is signalled, in its order, and nobody else; a number still in use is a descendant's |
| `Supervisor.Host.Reap` | test/e2e/lib/process.py:33-39 | False exactly when no descendant is left |
| `Supervisor.Host.Watch` | test/e2e/lib/process.py:66-75 | the look that ends it shows the very process started, and in this order a stop signal, its own exit, or the deadline; at every earlier look it was running, in time and without a stop signal |
| `Supervisor.Host.Follow` | test/e2e/lib/process.py:60-75 | a stop before the start starts nothing and is the end; what is reported, in numbers, for an exit, a stop signal and a timeout |
| `Supervisor.Host.Rounds` | test/e2e/lib/process.py:81-90 | one signal, round by round, each to exactly what its scan listed; another round follows exactly when something is left and the grace time is not over |
| `Supervisor.Host.Cleanup` | test/e2e/lib/process.py:76-93 | whether anything is left is seen by a last scan |
| `Supervisor.Host.Finish` | test/e2e/lib/process.py:80-90 | a stage of terminate signals and then a stage of kill signals, of at least one round each, which go on exactly while something is left and the grace time of the stage is not over |
| `Supervisor.LeftAreKilled` | test/e2e/lib/process.py:80-90 | whoever was below the supervisor after the first stage and is still there in the end was below it in every scan of the kill stage, and was sent a kill signal by each that listed it, which are those that began when it was a child of the supervisor, those during which neither it nor an ancestor of it got another parent, and possibly others |
| `Supervisor.MissedByKill` | test/e2e/lib/process.py:80-90 | a clean-up whose one kill scan misses a running descendant: it is left and was sent no kill signal |
| `Supervisor.LastScan` | test/e2e/lib/process.py:91-93 | a scan decides whether anything is left although others go on: its first reading alone does |
| `Supervisor.CleaningOrder` | test/e2e/lib/process.py:80-90 | no terminate signal follows a kill signal, and only descendants are hit |
| `Supervisor.Host.Round` | test/e2e/lib/process.py:83-86 | exactly what the scan listed is signalled before the reaping |
| `Supervisor.Host.Supervise` | test/e2e/lib/process.py:42-94 | 0 exactly when the last look shows the process spawned by this run as exited with 0, every look was without a stop signal and every earlier one in time, and no descendant is left; an exit with code c > 0 gives c, death by signal s (code -s) gives 128 + s, a timeout 124, stop signal 2 or 15 gives 130 or 143, a success that left something 1; both stages of signals, 15 and then 9, with the grace time each, in every run that gets that far; a stop before the start starts nothing |
| `Supervisor.FollowedIsVerdict` | test/e2e/lib/process.py:66-75 | how a run ends is a function of the times of its looks, of the exit and of the stop signal |
| `Supervisor.LateExitIff` | test/e2e/lib/process.py:66-75 | for all such times: an exit is reported at or after the deadline exactly when, before any stop signal was seen, some look came after both and none between the earlier and the later of the two |
| `Supervisor.LateRun` | test/e2e/lib/process.py:66-75 | such a run: looks at 0 and 30, the exit at 25, 20 allowed, and status 0 |
| `Supervisor.TreeGone` | test/e2e/lib/process.py:91-93 | no descendant left means nothing started under the command is left |
| `Bytes.HexIntBound` | scripts/static-crypto-catalog.py:136 | eight characters, with signs, prefixes and underscores as Python reads them, never spell 2^32 |
| `Bytes.HexIntIff` | scripts/static-crypto-catalog.py:136 | what the fields of a header are read as, on every byte string: white space around an optional sign, an optional 0x and digits of either case with single underscores between them |
| `Bytes.HexIntRead` | scripts/test-static-crypto.py:60 | a number printed by `%08x` below 2^32 is read back |
| `Rpm.RpmSources` | scripts/static-crypto-catalog.py:120-152 | the loop computes the specified parse of what gzip makes of the payload, which starts where the headers end |
| `Rpm.StartIff` | scripts/static-crypto-catalog.py:122-131 | on every byte string: the payload starts there exactly when before it come the lead, a header of sixteen bytes, any number of sixteen-byte index entries and any store, less than eight bytes up to a multiple of eight, and another such header; the counts are the big-endian ones in the header |
| `Rpm.PackageIsRead` | scripts/static-crypto-catalog.py:120-131 | for every lead, two headers with any index and store, padding to a multiple of eight and payload, that payload is unpacked and parsed |
| `Rpm.NumbersIff` | scripts/static-crypto-catalog.py:134-137 | magic and numbers of a member header by their byte offsets |
| `Rpm.ReadAll` | scripts/static-crypto-catalog.py:132-152 | the member loop computes the specified parse; position grows by at least 112 |
| `Rpm.UpIsRounding` | scripts/static-crypto-catalog.py:130-144 | the next multiple of 4 or 8 is what the integer expressions yield |
| `Rpm.SafeIsComponent` | scripts/static-crypto-catalog.py:76-80 | a safe name without a slash is one path component and never the end marker |
| `Rpm.SafeIff` | scripts/static-crypto-catalog.py:76-80 | a safe name without a slash, character by character |
| `Rpm.RegularIff` | scripts/static-crypto-catalog.py:149 | of the bits of the mode that give the kind, the highest alone is set |
| `Rpm.AcceptedIff` | scripts/static-crypto-catalog.py:132-152 | on every byte string: accepted exactly when the members lie one after the other up to the end marker under distinct names, and then with that result |
| `Rpm.InOrder` | scripts/static-crypto-catalog.py:141-144 | member spans are in order, disjoint, less than four bytes apart, each of at least 112 bytes, and end at the end marker |
| `Rpm.AcceptedKeys` | scripts/static-crypto-catalog.py:148-151 | every key is one safe component of a regular single-link member that lies in the stream |
| `RpmWriter.TooLongNameAccepted` | scripts/static-crypto-catalog.py:137-144 | a stream of nothing but an end marker is accepted with every declared name length from 11 up, though only eleven bytes are there: 121 bytes with length 12, for one |
| `RpmWriter.NumbersOf` | scripts/test-static-crypto.py:57-60 | the fields of a written header: inode 1, the mode, one link, size and length, and 0 for the rest |
| `RpmWriter.RoundTrip` | scripts/test-static-crypto.py:55-64 | parsing undoes writing for all distinct safe names and arbitrary bodies whose sizes fit |
| `RpmWriter.RoundTripIff` | scripts/test-static-crypto.py:55-64 | and for no others: the round trip holds exactly when every body and name is below 2^32 |
| `RpmWriter.ExactlyTheEntries` | scripts/test-static-crypto.py:55-64 | the parsed map holds each entry under its name and nothing else |
| `Bundle.AlignUpIsRounding` | internal/runtimebundle/bundle.go:132-134 | the next multiple of 2 MiB is what the integer expression yields |
| `Bundle.LeastPadding` | internal/runtimebundle/bundle.go:47-48 | the padding aligns the file, and none smaller does |
| `Bundle.ZipSize` | internal/runtimebundle/bundle.go:111-130 | the footer has 290 bytes whatever the digest |
| `Bundle.LocalFields` | internal/runtimebundle/bundle.go:111-130 | the local header says what the central one says |
| `Bundle.TimestampIs` | internal/runtimebundle/bundle.go:22-26 | the time stamp of the entry is that of 1 January 1980 |
| `Bundle.DescriptorIs` | internal/runtimebundle/bundle.go:111-130 | the descriptor behind the empty file gives checksum and sizes 0 |
| `Bundle.MarkerFound` | scripts/release-runtime-payloads.py:33-51 | the end record of a built file leads to its one marker right behind the prefix |
| `Bundle.BuiltIsAccepted` | scripts/release-runtime-payloads.py:26-61 | a built bundle is accepted exactly when the input carries the EROFS magic at offset 1024 |
| `Bundle.AcceptableIff` | scripts/release-runtime-payloads.py:26-61 | on every file, byte by byte: accepted exactly when it is not empty, aligned, carries the EROFS magic at 1024, and ends with an archive of one stored, empty, unencrypted entry of 1 January 1980 and mode 0444, right behind the prefix and named .kuasar.digest. and the hexadecimal digest of that prefix |
| `Bundle.AnnouncesIff` | scripts/release-runtime-payloads.py:46-61 | the name of the entry spells the digest in lower-case hexadecimal digits |
| `Bundle.ExtraIff` | scripts/release-runtime-payloads.py:41-51 | extra fields one after the other, none a ZIP64 or Unicode-path one |
| `Bundle.PrefixCheckImplied` | scripts/release-runtime-payloads.py:28-40 | the bound on the prefix follows from the size, the alignment and the bounds of the end record |
| `BundleBuild.Sink.WriteZeros` | internal/runtimebundle/bundle.go:136-149 | file and digest both get exactly that many zeros, unless a write fails |
| `BundleBuild.Sink.Copy` | internal/runtimebundle/bundle.go:66-70 | file and digest both get the whole input, for blocks of any size, unless a call fails |
| `BundleBuild.Assemble` | internal/runtimebundle/bundle.go:66-99 | the temporary file holds the bundle, or the build stops |
| `BundleBuild.SettleFile` | internal/runtimebundle/bundle.go:91-99 | mode 0644, sync and close, in this order |
| `BundleBuild.Assembled` | internal/runtimebundle/bundle.go:47-48 | with a size from fstat that differs from what was copied, the file is aligned only if it is the right bundle all the same |
| `BundleBuild.Build` | internal/runtimebundle/bundle.go:28-109 | success replaces the output by the bundle of the input, which is readable by all, was synced and closed before the rename, and returns its digest; without a failed call it succeeds exactly for a regular input whose size agrees; failure leaves everything as it was, except that a temporary file stays if its removal fails |
| `BundleBuild.DigestOf` | scripts/release-runtime-payloads.py:52-59 | the digest of exactly the prefix, for blocks of any size |
| `BundleBuild.VerifyBundle` | scripts/release-runtime-payloads.py:26-61 | accepts exactly the acceptable files |
| `GuestMemory.Memory.MemfdOffToChVa` | scripts/guest-inspect.py:109-113 | the search loop finds what the list says |
| `GuestMemory.Memory.VirtToChVa` | scripts/guest-inspect.py:115-123 | the three translations in a row; an address is given only if a byte stands behind it there, and refused only if none does |
| `GuestMemory.BackedIff` | scripts/guest-inspect.py:30-41 | in numbers: the image is the last two GiB of the address space, the direct map 64 TiB, memory below three GiB comes first in the file and memory above four GiB right behind it; an address is translated to the byte that stands behind it, and refused exactly when none does |
| `GuestMemory.PhysBijection` | scripts/guest-inspect.py:102-107 | a strictly increasing bijection from the addresses outside the hole onto the offsets |
| `GuestMemory.ImageBelowHole` | scripts/guest-inspect.py:116-117 | no 64-bit image address reaches the hole |
| `GuestMemory.AliasesAgree` | scripts/guest-inspect.py:116-119 | image and direct map name the same bytes |
| `GuestMemory.OrderIrrelevant` | scripts/guest-inspect.py:109-113 | for disjoint regions the order of the list does not matter |
| `GuestMemory.SortingIrrelevant` | scripts/guest-inspect.py:97 | nor does the sorting in the constructor |
| `GuestMemory.SortIsStable` | scripts/guest-inspect.py:97 | the constructor sorts by offset and keeps the order of equal offsets |
| `GuestMemory.MapInjective` | scripts/guest-inspect.py:102-123 | no two physical addresses share a host address |
| `GuestMemory.Affine` | scripts/guest-inspect.py:125-126 | inside one region and one side of the hole a read that translates its first address reads the right bytes |
| `GuestMemory.HoleBreaksReads` | scripts/guest-inspect.py:125-126 | across the start of the hole it is wrong |
| `GuestMemory.RightReadIff` | scripts/guest-inspect.py:115-126 | a read of any positive length is right exactly when it stays in the image or the direct map, below three GiB or above four, and in a chain of regions contiguous in the file and in the process |
| `GuestMemory.SeamBreaksReads` | scripts/guest-inspect.py:109-126 | two regions in which the same read is right or wrong as they meet in the process or not |
| `Archive.SafeMembers` | scripts/prepare-sandbox-init.py:39-57 | accepts exactly the acceptable lists, whose dictionary it returns |
| `Archive.AcceptedIff` | scripts/prepare-sandbox-init.py:39-57 | on every list of members: accepted exactly when, the root entry apart, they stand for different paths of plain, printable parts, are directories and regular files of root with no special bit and no write bit for group or others, and what is above another is a directory |
| `Archive.SafeModeIff` | scripts/prepare-sandbox-init.py:51-52 | the mask 07022 in octal digits of the mode |
| `Archive.CollectMembers` | scripts/prepare-sandbox-init.py:39-53 | the dictionary holds every member under its name |
| `Archive.AcceptedIsTree` | scripts/prepare-sandbox-init.py:45-56 | accepted members have plain paths and form one tree |
| `Archive.AcceptedExtracts` | scripts/prepare-sandbox-init.py:39-57 | extraction in any order succeeds and gives the same tree |
| `Archive.StaysInside` | scripts/prepare-sandbox-init.py:45-47 | following a plain path never leaves the root |
| `Archive.JoinSplit` | scripts/prepare-sandbox-init.py:47 | names and paths correspond one to one |

## Left out

- The group of the staging directory, which line 138 compares again: the modelled chmod never changes it.
- ACL byte encoding, the sticky-bit and mount checks (one refusal), the kernel-version fallbacks for chmod, and the umask except for the owner bits it may drop.
- PendingArtifacts.PendingArtifact.Close: only own inodes leave the parent with each identity check and the removal it guards as one step; with a writer in between it is false (`PendingArtifacts.ForeignDirectoryCanBeRemoved`).
- PendingArtifacts.PendingArtifact.InheritFileGroup: the entries of both directories are compared without interference only; with other processes a foreign file can be moved (`PendingArtifacts.ForeignFileCanBeMoved`).
- Exports.WritePreparedExport: what the destination directory holds in the end is stated without interference; with other processes, only what this run did to it.
- PendingArtifacts.Reserve: with other processes a foreign inode may be moved out of the parent under the reserved name, under the condition in `InheritFileGroup`.
- Exports.WritePreparedExport: the output name's first check, before the reservation, is one of the refusals; an output named like the staging directory of the run counts as irregular.
- Reuse of inode numbers; the two consecutive fstat calls at pending_linux.go:100 and 106 are one.
- Preparation of the image, manifest ingest, network, and terminal detection: steps that succeed or fail.
- Argument syntax of the scripts (unit, tag, branch names), the local bundle checks and `validate-preview-line.sh`: steps that succeed or fail before the requests they guard.
- The order of uploads is arbitrary here; the script sorts the names.
- JSON values of an unexpected type read as missing.
- `gh` paging, HTTP status parsing, printed messages.
- Supervisor.Host.Watch: a run without a deadline is followed for an arbitrary finite number of polls, after which a stop signal is taken to arrive; likewise others start only finitely many processes in one run.
- The parent-death signal, and threads of a process.
- Supervisor.Host.Descendants: a number that was read is not given out again before the scan and its signals are over, as the script's comment assumes.
- Bundle.Acceptable: an archive with a ZIP64 locator, or with a ZIP64 or Unicode-path extra field, is taken as refused; text decoding of names and the newer overlap checks of Python's zipfile are not modelled.
- BundleBuild.Build: file sizes are unbounded integers; the closing directory sync, whose errors the tool ignores, has no effect here.
- SHA-256, gzip and JSON encoding: functions of which only the round trip, the length or injectivity is used.
- Catalog validation and inventory, payload extraction, symbol loading and counter decoding in the inspector, and tag rules of the other scripts: they would only add easy members.
- EROFS and tar contents.
