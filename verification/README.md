# Repository tooling, modelled in Dafny

The repository keeps its issues as markdown files, publishes claims on them through git, pins its third-party code, and
bounds what its tools print. This project models that tooling and proves what it is for.

| file | what it models |
|---|---|
| `Text.dfy` | Python strings split on newlines, stripped and joined |
| `Frontmatter.dfy` | `set_fields`: the line edit of a frontmatter, the block edit it amounts to, and the map update that is |
| `Notes.dfy`, `NotesLaws.dfy`, `NotesEdits.dfy` | the `## Notes` section: the fence-tracking scanner, `set_notes`, `split_notes`, reading back what was written, and edit after edit |
| `Edits.dfy` | field edits and notes edits of one file commute |
| `Check.dfy` | `_check_issue` with its lookups of issues and files in a tree |
| `Claims.dfy` | who holds an issue, read from its text, and what claiming and releasing do to that |
| `Protocol.dfy`, `ProtocolRuns.dfy`, `Exclusion.dfy` | any number of clients fetching, building, pushing and retrying against one branch: history, lost updates, progress, mutual exclusion |
| `Landing.dfy` | the second half of `_push_commit`: holding local edits back, merging, restoring |
| `EditServer.dfy` | the edit server: write, check again, take back |
| `Links.dfy`, `Moves.dfy` | relative links: paths and the link grammar, and a file move that keeps the link graph |
| `FilesPin.dfy`, `Install.dfy` | the hashed file list, and an install that can die at any disk operation |
| `Digest.dfy` | the round-robin line allocation of the lint digest |
| `Forest.dfy` | the tree listing of issues |
| `Cache.dfy` | the cache of upstream lookups over any number of runs |
| `Embed.dfy` | chunked raw-string literals, read back by a C++ lexer |

Code that changes state is imperative here as well: classes for the checkout, the server, the disk, the moved documents
and the cached tool, loops for the scanners, allocators, emitters and walks. Each method is tied to a function of its
input or of the old state, and the lemmas are about those functions.

Where a law that the code suggests is false, the code is modelled as it is, a failing input is given, and the law is
proved to hold if and only if a condition on the input does:

- `set_fields` ends a value at its first line that is neither indented nor a list item, so removing a key whose value
  goes on behind an empty line or a comment gives the rest to the key above (`OwnersKept`, `StrayItem`).
- Claim then release gives a text back exactly when it has a non-blank frontmatter between plain `---` lines, or none
  and no leading blank line (`ClaimReleaseIdentity`, `LeadingBlankIsLost`).
- Notes that leave a section are read back exactly when no fence is open where it goes, the notes neither hold a heading
  that ends them nor leave a fence open before what follows, and they do not close a frontmatter the text leaves open
  (`PutThenGet`, `HeadingIsNotRead`, `ClosedIsNotRead`). After clearing, nothing is read exactly when no section with
  text follows the one that was cleared (`ClearThenGet`, `SecondSectionIsRead`). Overwriting notes, and adding and
  clearing them, need readable notes and a text that does not end in a whitespace-only line (`PutThenPut`,
  `AddThenClear`).
- With an update that leaves a frontmatter, field edits and notes edits commute exactly when the text had one, or the
  notes neither close one it leaves open nor go into an empty text (`EditsCommute`).
- A merge keeps what was published exactly when HEAD has it, HEAD still is the merge base there, or the file merge
  yields it; `RevertIsLost` is a publish that the merge undoes in the checkout (`Repo.Land`, `KeepsExactly`).
- Claims and releases alternate exactly when no release that landed was of a file git does not track, because such a
  release lands without a claim on the remote (`MutualExclusion`; `UntrackedRelease` is a run of four steps).
- Every link of a moved file is read on its own, so each stands or falls alone: it is read and leads where it led exactly
  when the part of the path it newly spells out holds no space, `#` or `)`, and it does not start like a URL
  (`MovedFileKeepsLinks`, `SpaceIsNotSpelled`, `ColonReadsAsUrl`). The links follow the file exactly when in addition
  none leads to the file itself (`SelfLinksStay`).
- An edit gives another issue no message exactly when that issue is closed, the number of lines stays, or every line
  range the issue names in the edited file fits the new number; the message carries the number, so a longer file can
  bring one as well (`EditSpares`, `LineRefBreaks`, and over whole runs `MessagesOnlyShrink`).
- The listing shows every found issue exactly when their parents do not go round in a loop (`PermutationIffNoLoop`,
  `LoopIsDropped`).
- A row of the upstream list shows its own upstream's answer, whatever the replies, exactly when no later upstream has
  the same directory and name (`OwnRowIffLast`, `SharedKey`).
- An install that carries the pin of a list holds the list's files exactly when the list gives no path two digests
  (`CarriedIsComplete`, `TwoDigests`).

One fact about the inputs of a law is shown by example only: a newline in a listed path makes two lists one pin
(`NewlineInPath`).

## Model

| member | source | states |
|---|---|---|
| Frontmatter.End | tools/issues/issues.py:104-111 | the closing delimiter is the first one after a first line that is one; None exactly without such a pair |
| Frontmatter.DelimiterIs | tools/issues/issues.py:106-110 | a delimiter is `---` with nothing but whitespace around it |
| Frontmatter.MatchesIsKeyOf | tools/issues/issues.py:136 | the regular expression for a key finds exactly the lines whose own top-level key it is |
| Frontmatter.MatchesIs | tools/issues/issues.py:136 | a line sets a key exactly when it is the key, whitespace or none, a colon, and anything |
| Frontmatter.BlockReplaced | tools/issues/issues.py:136-143 | an update takes the key's line with every indented line and list item right behind it, and nothing else |
| Frontmatter.SpliceIsPut | tools/issues/issues.py:136-143 | the line splice replaces, removes or appends exactly one block of the frontmatter cut at non-continuation lines |
| Frontmatter.PutIsMapUpdate | tools/issues/issues.py:127-143 | on a key given at most once the block edit is a map update or a map removal |
| Frontmatter.PutKeepsOthers | tools/issues/issues.py:123 | every block of another key stays, in its place |
| Frontmatter.OwnersKept | tools/issues/issues.py:140-143 | no continuation line attaches to a different key if and only if a line is written or the removed value is not cut by an empty line or comment |
| Frontmatter.StrayItem | tools/issues/issues.py:140-143 | removing a key whose list goes on behind an empty line gives the item to the key above |
| Frontmatter.SetFields | tools/issues/issues.py:122-148 | the loop over updates, with its search and its continuation scan, computes `FieldsSet` |
| Frontmatter.FieldsSetParts | tools/issues/issues.py:144-148 | the result reads back as exactly the updated frontmatter above an unchanged body |
| Frontmatter.FieldsSetUpdates | tools/issues/issues.py:122-148 | with updated keys given at most once and a frontmatter that stays, the fields are the map update and the body is unchanged |
| Frontmatter.UpdateMapAt | tools/issues/issues.py:127-143 | what the update leaves at each key: the new line, nothing, or the old block |
| Frontmatter.FieldsSetTwice | tools/issues/issues.py:122-148 | the same update twice is the update once |
| Frontmatter.ClaimReleaseIdentity | tools/issues/issues.py:807-830 | claim fields, then release fields, is the identity on an unclaimed text if and only if it is tidy |
| Frontmatter.LeadingBlankIsLost | tools/issues/issues.py:144-147 | an unclaimed text that opens with an empty line is not given back |
| Notes.NotesSpan | tools/issues/issues_serve.py:38-49 | one pass with a fence flag finds the first unfenced notes heading and the first unfenced heading of level one or two after it |
| Notes.HeadIsFirst | tools/issues/issues_serve.py:41-46 | the heading found stands outside fences and no earlier one does |
| Notes.HeadExactly | tools/issues/issues_serve.py:41-46 | the heading found is exactly the first notes heading outside fences |
| Notes.EndExactly | tools/issues/issues_serve.py:47-49 | the end found is exactly the first heading of level one or two outside fences |
| Notes.FencedIsParity | tools/issues/issues_serve.py:43-44 | a fence is open after an odd number of fence lines |
| Notes.FenceIs | tools/issues/issues_serve.py:43 | a fence is three backquotes behind whitespace or nothing |
| Notes.NotesHeadIs | tools/issues/issues_serve.py:45 | the notes heading is `## Notes` with nothing but whitespace around it |
| Notes.HeadingIs | tools/issues/issues_serve.py:47 | a heading that ends the notes is one or two hashes and a space at the start of a line |
| Notes.StoredIs | tools/issues/issues_serve.py:70 | lines typed with carriage returns are stored as the same lines with newlines |
| Notes.StripOff | tools/issues/issues_serve.py:70 | stripping takes the newlines at both ends and nothing else |
| Notes.PopTrailing | tools/issues/issues_serve.py:80-81 | drops exactly the trailing whitespace-only lines |
| Notes.SetNotes | tools/issues/issues_serve.py:68-84 | replaces, appends or removes the section as `NotesSet` says |
| NotesLaws.PutShape | tools/issues/issues_serve.py:68-84 | the lines after an edit: kept lines, an empty line, the section, an empty line, the rest |
| NotesLaws.PutThenGet | tools/issues/issues_serve.py:52-84 | for every text and all notes, `split_notes` after `set_notes` returns the stored notes if and only if they can be read there, or clear the section and no section with text follows |
| NotesLaws.PutThenGetFilled | tools/issues/issues_serve.py:52-84 | notes that leave a section come back if and only if no fence is open there, they are readable and they do not close an unclosed frontmatter |
| NotesLaws.ClearThenGet | tools/issues/issues_serve.py:52-84 | after clearing, the notes are those of the next section behind the cleared one, or none |
| NotesLaws.SecondSectionIsRead | tools/issues/issues_serve.py:52-84 | clearing a text with two sections makes the second one the notes |
| NotesLaws.ClosedIsNotRead | tools/issues/issues_serve.py:68-84 | notes with a `---` line in a file that never closes its frontmatter do not come back |
| NotesLaws.HeadingIsNotRead | tools/issues/issues_serve.py:47-48 | notes that open with a level-one heading never come back, in any text |
| NotesEdits.PutThenPut | tools/issues/issues_serve.py:68-84 | setting two notes in turn is setting the second if and only if the first are read back and the text had a section or ends in a non-blank line |
| NotesEdits.PutKeepsOutside | tools/issues/issues_serve.py:78-83 | in every text the non-blank lines after an edit are those before the section, the new section's and those after it, in order |
| NotesEdits.ClearKeepsOutside | tools/issues/issues_serve.py:73-84 | clearing leaves exactly the non-blank lines outside the section, and a text without one as it was |
| NotesEdits.SplitShowsBody | tools/issues/issues_serve.py:52-65 | the body `split_notes` shows holds, in order, every non-blank line of the body outside the section but the title |
| NotesEdits.PutKeepsBody | tools/issues/issues_serve.py:52-84 | an edit whose notes are read back changes nothing in the body that is shown |
| NotesEdits.ClearKeepsBody | tools/issues/issues_serve.py:52-84 | clearing the only section changes nothing there if and only if a line stands before it or no level-one heading right behind it |
| NotesEdits.AddThenClear | tools/issues/issues_serve.py:68-84 | adding notes to a text without any and clearing them gives the text with exactly one trailing newline if and only if the notes are read back and the text ends in a non-blank line |
| Edits.NotesSetBody | tools/issues/issues_serve.py:68-84 | below a frontmatter `set_notes` keeps it and edits the body as a function of the body alone |
| Edits.EditsCommute | tools/issues/issues_serve.py:253-260 | for an update that leaves a frontmatter, fields then notes equals notes then fields if and only if the text had one, or the notes do not close one it leaves open and do not go into an empty text |
| Edits.ClosedDoesNotCommute | tools/issues/issues_serve.py:253-260 | notes that close an unclosed frontmatter give two texts in the two orders |
| Check.OthersUnaffected | tools/issues/issues.py:986-1057 | changing the text of one file gives another issue no message, except about a line range of that file |
| Check.NoProblemsIffAccepted | tools/issues/issues.py:986-1057 | the check has nothing to say exactly about issues that meet the rules: place, frontmatter, title, shapes and values of fields, status, parent and blockers, refs |
| Check.FieldsAccepted | tools/issues/issues.py:992-1009 | the field messages are empty exactly for fields of the right shapes and values, and a claim with both its fields |
| Check.OwnIssueIsFound | tools/issues/issues.py:938-947 | an unqualified name of an issue file in the tree has the type its name starts with |
| Check.QualifiedName | tools/issues/issues.py:941-947 | a name qualified by the repository's own name is looked up in the tree, one of another repository there |
| Claims.ClaimHolds | tools/issues/issues.py:802-807 | a claimed text is held by whoever claimed it, with one claim line |
| Claims.EmptyIsNoClaim | tools/issues/issues.py:804-805 | a claim field without a value is no claim |
| Claims.ClaimWrites | tools/issues/issues.py:807 | a claim writes the name under `claimed-by` and the time under `claimed-at`, and keeps every other field and the body |
| Claims.ReleaseWrites | tools/issues/issues.py:830 | a release takes both fields out and keeps every other one |
| Claims.ReleaseFrees | tools/issues/issues.py:824-830 | a released text is held by nobody |
| Protocol.AncestorAntisymmetric | tools/issues/issues.py:729 | ancestry of commits is antisymmetric, so a tip that descends from another is not below it |
| Protocol.ChangedAt | tools/issues/issues.py:693-704 | the committed tree has the changes' content at their paths and the base's everywhere else |
| Protocol.FoundBelowDocs | tools/issues/issues.py:667-670 | a file of the issue's name below some `docs/issues/` is its issue file |
| Protocol.ClosedBelowDocs | tools/issues/issues.py:763-764 | a file below `docs/issues/.closed/` is a closed issue |
| Protocol.PushIsCompareAndSwap | tools/issues/issues.py:707-708 | in every reachable state a push is accepted if and only if the tip is still the fetched base, that is, nobody pushed since |
| Protocol.EarlierTip | tools/issues/issues.py:689-715 | every earlier tip is an ancestor of every later one |
| ProtocolRuns.StepKeeps | tools/issues/issues.py:679-715 | every fetch, build, push, rejection, failure, local edit and foreign push keeps the protocol invariant |
| ProtocolRuns.Reachable | tools/issues/issues.py:679-715 | the invariant holds in every state of every interleaving of any number of clients |
| ProtocolRuns.LinearHistory | tools/issues/issues.py:689-715 | each accepted push has the replaced tip as sole parent, changes the tree, changes exactly the built paths, drops no commit and makes no other commit reachable |
| ProtocolRuns.NoLostUpdate | tools/issues/issues.py:770-786 | what a published commit replaced on the remote is the client's HEAD content there, and what it put there is its working tree |
| ProtocolRuns.FilesBuild | tools/issues/issues.py:777-784 | `publish_files` builds exactly when every path is the same in HEAD and on the remote, and then the working tree's content, deletions included |
| ProtocolRuns.GivingUpMeansProgress | tools/issues/issues.py:57 | a client that gave up saw at least five other pushes land since its command began |
| ProtocolRuns.RejectionMeansProgress | tools/issues/issues.py:707-711 | a push is rejected if and only if a push landed since its fetch, and all of those are other clients' |
| ProtocolRuns.AloneItLands | tools/issues/issues.py:689-709 | a client that nobody interrupts lands what its command builds, as the one new commit |
| Exclusion.IssueBuilds | tools/issues/issues.py:747-830 | exactly when a claim or release builds, with and without force, and what it writes where |
| Exclusion.ForcedClaimTakesOver | tools/issues/issues.py:803-815 | a forced claim of a held issue that passes the gate makes the claimer its holder |
| Exclusion.ClaimLands | tools/issues/issues.py:802-815 | an accepted claim found the issue unheld and passed the gate against its parent commit, leaves a regular issue held by the claimer, and carries the name and the time |
| Exclusion.ReleaseLands | tools/issues/issues.py:824-830 | an accepted release carries the name of the holder, leaves the issue unheld, and takes exactly the claim fields out |
| Exclusion.OtherIssueLands | tools/issues/issues.py:747-767 | an accepted claim or release of one issue changes the holder of no other |
| Exclusion.HeldAsLogged | tools/issues/issues.py:747-833 | as long as releases were of tracked files, the remote shows the holder the log of accepted claims and releases leaves |
| Exclusion.MutualExclusion | tools/issues/issues.py:679-833 | in every interleaving without force, accepted claims and releases of an issue alternate, each release naming the claim it ends, if and only if no accepted release was of an untracked file; every claim is free of problems against its parent |
| Exclusion.FirstUntracked | tools/issues/issues.py:755-760 | the first accepted release of an untracked file finds nobody holding the issue |
| Exclusion.UntrackedRelease | tools/issues/issues.py:755-760 | a run of four steps from an unclaimed remote whose one push is a release, so it does not alternate |
| Landing.MergedAt | tools/issues/issues.py:734 | the merged tree holds at each path what the three-way merge of that path gives |
| Landing.KeepsExactly | tools/issues/issues.py:734 | the merge yields the published content if and only if HEAD has it, HEAD is the base there, or the file merge gives it |
| Landing.Repo.Switch | tools/issues/issues.py:730 | a fast-forward rewrites exactly the touched paths, in the working tree and the index, and is refused exactly when it would overwrite a local change |
| Landing.Repo.Merge | tools/issues/issues.py:733-738 | a merge makes a commit of both parents with the merged tree, in HEAD, working tree and index, exactly without a conflict and without overwriting a local change, or leaves everything as it was |
| Landing.Repo.Update | tools/issues/issues.py:729-738 | without local changes, ancestry decides on a fast-forward, and branch and conflicts on a merge |
| Landing.Repo.Hold | tools/issues/issues.py:718-728 | exactly the paths of the commit that the checkout holds uncommitted go back to HEAD, in the working tree and the index, and every other path stays |
| Landing.Repo.Restore | tools/issues/issues.py:739-743 | every held path gets the built content, deletions included, and no other path changes |
| Landing.Repo.Land | tools/issues/issues.py:715-744 | for every pushed commit: after a fast-forward each of its paths has its content; without an update held paths get it and others stay; after a merge a path has it exactly when the merge keeps it; what is staged afterwards, and every other path, is as it was or as HEAD has it |
| Landing.UntouchedIsKept | tools/issues/issues.py:777-786 | merging a `publish_files` commit gives the working tree's content at every chosen path that no unpushed commit touched, and no conflict there |
| Landing.RevertIsLost | tools/issues/issues.py:733-736 | a checkout whose publish is accepted, pushed and merged, and which then holds another text than it published |
| EditServer.WriteNoWorse | tools/issues/issues_serve.py:210-223 | an edit that adds no message to its own issue adds none to any issue, messages counting an issue's lines aside |
| EditServer.Server.Write | tools/issues/issues_serve.py:210-223 | the text is written, or the file is as before exactly because a message would be new; another issue gains no message if and only if it is spared; `touched` records what changed |
| EditServer.Server.Edit | tools/issues/issues_serve.py:253-260 | the edit is written exactly when the issue is found, the request is valid and no message is new; then the file has the fields and the notes, and `touched` records it |
| EditServer.EditedIs | tools/issues/issues_serve.py:257-259 | fields alone, notes alone, both, or neither |
| EditServer.Server.EditEach | tools/issues/issues_serve.py:262-285 | a bulk edit or tag rename makes its edits up to the first one that is refused, because its issue is not found, has no text or would gain a message |
| EditServer.Server.AppliedAll | tools/issues/issues_serve.py:262-285 | a request that finds another file for each name leaves each as it edits it, and no other changed |
| EditServer.Server.StoppedIs | tools/issues/issues_serve.py:262-285 | where a request stops: every edit before is made, and that one is refused |
| EditServer.Server.Serve | tools/issues/issues_serve.py:210-285 | a sequence of requests is served in turn, each up to its first refusal; none makes any issue worse, line ranges aside, and an issue gained no message at all if and only if it is closed or its line ranges are kept |
| EditServer.RangeMessage | tools/issues/issues.py:1043-1056 | an issue has a message about a line range if and only if it is open and names a range outside the counted lines |
| EditServer.EditSpares | tools/issues/issues_serve.py:213-220 | an edit gives another issue no message if and only if that issue is closed, the line count stays, or its ranges fit the new count |
| EditServer.MessagesOnlyShrink | tools/issues/issues_serve.py:213-220 | after any edits an issue's messages only got fewer if and only if it is closed or every range of it that does not fit was there before over as many lines |
| EditServer.LineRefBreaks | tools/issues/issues.py:1050-1056 | an edit that changes the line count gives an open issue whose range does not fit it a message it did not have |
| Links.RelpathResolves | tools/issues/issues.py:858-859 | the relative path from a directory to any path of names resolves there to that path |
| Moves.RelpathIsTarget | tools/issues/issues.py:858-859 | it can stand in a link if and only if the part it spells out holds no link syntax |
| Moves.RelpathIsRelative | tools/issues/issues.py:844-845 | it reads as a relative target if and only if it does not go straight down into a name like a scheme |
| Links.ShowScan | tools/issues/issues.py:840-850 | links and the text between them make up the text again |
| Links.LinkIsFound | tools/issues/issues.py:52 | a link is `](`, a target without parenthesis, hash or whitespace, a fragment or none, and a parenthesis |
| Links.ScanSameShape | tools/issues/issues.py:840-850 | replacing links, by whatever targets, changes what is read in their places and nowhere else |
| Links.ScanLines | tools/issues/issues.py:840-850 | no link goes over the end of a line |
| Links.RewriteReadsEach | tools/issues/issues.py:840-850 | a rewritten text reads as its rewritten links, each read on its own, among the same characters |
| Links.RewriteReads | tools/issues/issues.py:840-850 | a rewritten text reads as the rewritten links in the same places if and only if every new target can stand in a link |
| Links.RewriteApplies | tools/issues/issues.py:843-850 | a link that starts with a slash or with a scheme and a colon is left alone, whatever the rewrite; every other one gets what the rewrite answers |
| Moves.RebasedReads | tools/issues/issues.py:858-861 | the moved file reads as its rebased links if and only if each place can be spelled from the new directory |
| Moves.MovedFileKeepsLinks | tools/issues/issues.py:853-861 | every link of the moved file keeps its fragment, and is read and leads where it led if and only if the way there can be spelled and does not start like a URL, whatever the other links are; no other character changes |
| Moves.FieldsKeepBodyLinks | tools/issues/issues.py:861 | setting fields keeps the links of the body |
| Moves.MovedIssueKeepsLinks | tools/issues/issues.py:853-867 | the links of the moved issue are those of its new frontmatter and of its old body, each rebased and read on its own |
| Moves.RetargetedReads | tools/issues/issues.py:869-880 | another file reads as its retargeted links if and only if it has none to the old place or the new place can be spelled |
| Moves.OtherFilesFollow | tools/issues/issues.py:869-883 | every link of another file to the old place keeps its fragment, and is read and leads to the new one if and only if the way there can be spelled and does not start like a URL; all else is untouched |
| Moves.SelfLinksStay | tools/issues/issues.py:858-861 | the moved file's links follow the move if and only if none leads to the file itself and the way to every place makes a link |
| Moves.ColonReadsAsUrl | tools/issues/issues.py:844-845 | a link to a file with a colon in its name leads nowhere once its file moves up beside it |
| Moves.SpaceIsNotSpelled | tools/issues/issues.py:840-861 | a link to a neighbour is not read any more once its file leaves a directory with a space in its name |
| Moves.Docs.Move | tools/issues/issues.py:853-883 | the file moves with its fields set and links rebased, and every listed file is retargeted |
| FilesPin.PinTextDecodable | extern/deps_manifest.py:154-160 | the hashed text determines the list, so any added, removed, reordered or edited file changes it |
| FilesPin.PinTextIs | extern/deps_manifest.py:159 | the hashed text is one line of path, space and digest for each file, in order |
| FilesPin.NewlineInPath | extern/deps_manifest.py:343-358 | a newline in a path, which the manifest check accepts, gives two lists one text |
| Install.PinDecidesFiles | extern/deps_manifest.py:359-361 | with a collision-free digest one pin stands for one list |
| Install.StagedIsHonest | extern/oidn-weights/fetch-oidn-weights.py:46-62 | a staging tree with every verified file and the pin holds the files of whatever list has that pin |
| Install.TwoDigests | extern/oidn-weights/fetch-oidn-weights.py:53-58 | a tree never holds the files of a list with two digests for one path |
| Install.CarriedIsComplete | extern/oidn-weights/fetch-oidn-weights.py:74-92 | an honest install that carries a list's pin holds its files if and only if the list gives no path two digests |
| Install.Disk.RemoveInstall | extern/oidn-weights/fetch-oidn-weights.py:90-91 | removing the old tree file by file, dying anywhere, leaves a tree without a pin |
| Install.Disk.FetchAll | extern/oidn-weights/fetch-oidn-weights.py:84-86 | the download loop ends with exactly the downloads staged, each under its digest, refuses only on a digest that does not match, and dies only when its operations run out |
| Install.DownloadedIs | extern/oidn-weights/fetch-oidn-weights.py:84-86 | the staged tree holds the listed files and no other, each as downloaded last |
| Install.Disk.Swap | extern/oidn-weights/fetch-oidn-weights.py:88-92 | at every point of the swap an install that carries a pin holds that pin's files |
| Install.Disk.Run | extern/oidn-weights/fetch-oidn-weights.py:65-92 | one invocation, forced or not, dying at any disk operation, keeps the install honest; it is current exactly when unforced with the pin installed; otherwise it leaves exactly the downloads and the pin, unless a digest does not match or it has fewer operations than an install takes |
| Install.Disk.RunAll | extern/oidn-weights/fetch-oidn-weights.py:65-92 | any number of invocations under any manifests, each dying anywhere, keep the install honest, and one that ends well carries the last pin |
| Digest.SortedOrders | tools/lint/clang-tidy.py:158 | the sections are a permutation ordered by falling count, then name |
| Digest.OrderedMeans | tools/lint/clang-tidy.py:158 | more findings come first, and of equally many the name that sorts first |
| Digest.Allocate | tools/lint/clang-tidy.py:164-175 | the round-robin loop ends with a water-filling that spends the budget or everything |
| Digest.FilledUnique | tools/lint/clang-tidy.py:164-175 | a water-filling is determined by its sum, so the allocation is the only fair one |
| Digest.EveryCheckShows | tools/lint/clang-tidy.py:160-162 | every check with findings shows at least one |
| Digest.SharedSpends | tools/lint/clang-tidy.py:159-162 | unless everything is shown, the findings get exactly the limit less two lines a check, or a line a check |
| Digest.DigestBound | tools/lint/clang-tidy.py:153-187 | headers, items and markers stay within the limit or three lines a check; rationales add one a check at most |
| Digest.Render | tools/lint/clang-tidy.py:177-187 | the append loop prints the sections in order, each with header, rationale, share and marker |
| Digest.SectionTells | tools/lint/clang-tidy.py:178-187 | a section's header counts all findings, the rationale follows it, the first findings are shown in order, and the marker counts the rest exactly when there is one |
| Digest.RenderGrouped | tools/lint/clang-tidy.py:151-187 | the digest is the sorted sections under a fair share, within the bound |
| Forest.Group | tools/issues/issues.py:525-533 | the grouping loop lists under each issue its children, and as roots the rest, in sorted order |
| Forest.ChainFits | tools/issues/issues.py:536-539 | a chain of parents from a root repeats no issue, so the recursion is no deeper than the list |
| Forest.Visit | tools/issues/issues.py:536-539 | the recursive walk ends and appends the rows of the subtree |
| Forest.List | tools/issues/issues.py:525-542 | the listing ends and is the rows of all roots |
| Forest.LabelIs | tools/issues/issues.py:537 | a label is two spaces for every issue above, and the name |
| Forest.TopIssueIsListed | tools/issues/issues.py:528-533 | an issue without a parent, with one that is not listed, or that names itself is listed at the top |
| Forest.ChildIsListed | tools/issues/issues.py:528-539 | below a listed top issue its child is listed one level down |
| Forest.ListedIffChain | tools/issues/issues.py:525-542 | a row is listed if and only if its chain of listed parents reaches a root |
| Forest.RowsInOrder | tools/issues/issues.py:525-542 | rows stand in tree order: parents first, siblings as sorted |
| Forest.RowsDistinct | tools/issues/issues.py:525-542 | no issue has two rows |
| Forest.ChildUnderParent | tools/issues/issues.py:525-542 | a child stands one level below its parent, with nothing between but rows below that parent |
| Forest.PermutationIffNoLoop | tools/issues/issues.py:525-542 | the rows are a permutation of the found issues if and only if their parents do not go round in a loop |
| Forest.RulesListEverything | tools/issues/issues.py:1023-1031 | under the parent rules every found issue is listed once, at most two levels deep |
| Forest.LoopIsDropped | tools/issues/issues.py:525-542 | two issues that are each other's parent are not listed |
| Cache.Tool.LoadCache | tools/deps/deps.py:409-426 | the entries no older than the lifetime, of a file of the current schema |
| Cache.Tool.RunList | tools/deps/deps.py:484-512 | one run leaves the file `After` and shows the answers of `Row` |
| Cache.CopiedOrRecorded | tools/deps/deps.py:498-507 | an entry after a run was there before with the same time, or was recorded in the run without an error |
| Cache.EntriesRecorded | tools/deps/deps.py:484-507 | over any runs from an empty cache, every entry is an error-free answer some run was given for that key and pin |
| Cache.RowIs | tools/deps/deps.py:493-512 | every row shows what the last upstream with its key was told or had cached |
| Cache.OwnRowIffLast | tools/deps/deps.py:493-512 | a row shows its own upstream's answer for every cache and all replies if and only if no later upstream has its key |
| Cache.ShownAnswerIsCurrent | tools/deps/deps.py:409-512 | every shown answer was given in that run, or to an earlier run for the same key and pin, at most the lifetime before; the pin is the row's own exactly when its key does not come again |
| Cache.ErrorIsAskedAgain | tools/deps/deps.py:504-506 | an upstream whose lookup failed is asked again by the next run |
| Cache.AnswerIsReused | tools/deps/deps.py:409-426 | the next run reuses an answer if and only if it does not refresh and starts within the answer's lifetime |
| Cache.HitIsCarried | tools/deps/deps.py:496-500 | an answer from the cache stays in it with its own time |
| Cache.OthersAreDropped | tools/deps/deps.py:492-507 | what no upstream of a run asks for is not saved again |
| Cache.OfflineKeeps | tools/deps/deps.py:487-491 | an offline run asks and shows nothing and leaves the file alone |
| Cache.NothingToReuse | tools/deps/deps.py:415-422 | a refreshing run, and one without a readable file of the schema `deps/1`, asks every upstream |
| Cache.SharedKey | tools/deps/deps.py:493-512 | whenever a row's key comes again there are replies for which it shows another upstream's answer |
| Embed.FindFirst | tools/instruction-tracer/embed-html-assets.py:46 | a token is found where it first occurs, and only if it occurs |
| Embed.RawReads | tools/instruction-tracer/embed-html-assets.py:45-59 | a raw literal reads back as its text, whatever follows, if and only if the text does not hold the closing token |
| Embed.NoBorder | tools/instruction-tracer/embed-html-assets.py:56-57 | a closing token that starts inside a chunk ends inside it |
| Embed.ChunksFit | tools/instruction-tracer/embed-html-assets.py:54-59 | no literal holds more than 4000 characters, and there are no more literals than needed |
| Embed.EmitChunks | tools/instruction-tracer/embed-html-assets.py:58-59 | the chunk loop appends one literal a chunk |
| Embed.ChunksRead | tools/instruction-tracer/embed-html-assets.py:56-60 | lexing the adjacent literals and concatenating them gives exactly the text |
| Embed.HeaderReads | tools/instruction-tracer/embed-html-assets.py:34-66 | the whole header reads back as the assets' names and texts, in order, empty ones included |
| Embed.Embed | tools/instruction-tracer/embed-html-assets.py:31-66 | refuses exactly when an asset is missing or holds its closing token; otherwise the header reads back as the assets |

## Left out

- YAML: the reader is an arbitrary function in `Check`, and a line reader of one `claimed-by` field in `Claims`; a rendered value is one opaque line, so `_scalar` and list rendering are not modelled.
- Exclusion.MutualExclusion: assumes one `claimed-by` line and a title in the issue's text at the start, no force, and other pushes that leave the claim alone; names are written as they are read.
- Claims.ClaimHolds: the holder is read from the line, so a claim line that is invalid YAML counts as held, where the program reads no fields at all.
- Percent-decoding, symbolic links and platform separators in links: a target is its components.
- Install.Disk.Run: no listed path holds a newline; nothing is promised of the files of a list that names `pin.txt` or gives one path two digests; paths are compared as written, so `./pin.txt` counts as another file.
- Two installers at once; the other fetch scripts, whose swap differs.
- Embed.Embed: the variable names are identifiers and the delimiters have at most 16 characters a C++ delimiter may have, as the configured ones do; writing the file only when it changed is not modelled.
- Landing.Repo.Land: a failed fast-forward raises before the held edits are restored and has no promise.
- Edits.EditsCommute: says nothing of an update that leaves no frontmatter, where leading blank lines go too.
- git: commits are parents and a tree, a merge is per path with an arbitrary file merge and a given merge base; file modes, filters, renames and conflict markers are not modelled. A rejected push is a non-fast-forward; nobody else forces one.
- `_remote_path` takes the first of several hits; the model takes a fixed one for the same set of hits.
- `\r\n` in files read from a commit, encoding replacement and newline translation.
- Paths inside submodules, ignored paths and other repositories in `_check_issue` are whatever a `World` says of them; messages have no line numbers. Digits in dates are those of ASCII.
- `_updates`, tag and argument validation of the server: a request is what the validation made of it.
- EditServer.Server.Serve: ids are unique, so an issue is found again where it was; `pending`, `diff`, `publish` and the web handler are not modelled.
- JSON details of the cache: an entry without a time, which the tool never writes, and a document that is no object; a written cache reads back as it was.
- Digest.RenderGrouped: the names of checks are distinct, as keys of the dictionary; colours are not modelled.
- Filters, sort keys and columns of `list`: the listing starts from the sorted issues and the parent each one looks up to.
- Network, license generation, vendoring scripts, argument parsing and console output.
