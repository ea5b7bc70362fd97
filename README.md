# telegram-bot core, modelled in Dafny

This project models the core of the `telegram-bot` repository. That repository is a
Telegram bot plus a command-line uploader that posts a course's video files into a
group's forum topics. The parts modelled are these:

- **Folder trees** (`tree_node.dfy`, `tree_factory.dfy`). `FolderTree` is a map from node
  ids to nodes, with parent and child links. `FolderTreeFactory.create` walks a directory:
  it skips hidden entries, lists directories before files and sorts each group by name.
  The file system is a value (`FsEntry`). The md5 node id is a function given to the tree
  (`idOf`). `localeCompare` is a comparator required to be a total preorder.
- **Upload checkpoints** (`checkpoint_util.dfy`, `checkpoint_manager.dfy`). These hold the
  file name derived from the upload's parameters and the record of which files were
  uploaded. The manager is a class whose `checkpoint` field changes only through `Apply`.
  The disk is an object holding a map from file names to stored records.
- **Tagging** (`tagger.dfy`, `hashtag.dfy`). These are `TaggerService.classify` and
  `parseToTelegramHashtag`, which turn paths and titles into Telegram hashtags.
- **Uploading** (`telegram.dfy`, `service_upload.dfy`, `external_upload.dfy`,
  `upload_command.dfy`). These cover the two `FileUploadService`s, with file-type
  detection, the dry-run mode and rate limiting. They also cover the `uploadFolder` and
  `uploadMultipleFiles` commands. The file system and the Bot API are oracles in a
  `World`. Each upload returns its result and the send requests it made.
- **Handlers** (`base_handler.dfy`, `chainable_handler.dfy`, `event_handler_manager.dfy`,
  `video_categorizer.dfy`). `BaseHandler.execute` is modelled, and so are
  `ChainableHandler` chains linked through their `next` fields. The
  `EventHandlerManager` builds one chain per event. `VideoCategorizerHandler` rewrites a
  video's caption from its file name.

`strings.dfy`, `paths.dfy` and `wrappers.dfy` model the JavaScript and Node.js library
calls the core relies on: `trim`, `toLowerCase`, `split`, `indexOf`, `Number`,
`path.basename`, `path.extname`, `path.parse(..).name` and `path.join`.

## Model

| member | source | states |
|---|---|---|
| FolderTrees.FolderTree.constructor | bot/src/internal/tree-node.lib.ts:17-22 | a new tree has no nodes and no root, and its index invariant holds |
| FolderTrees.FolderTree.GetNode | bot/src/internal/tree-node.lib.ts:27-29 | a node is returned exactly when the id is stored, and it is the stored node |
| FolderTrees.FolderTree.GetRootNode | bot/src/internal/tree-node.lib.ts:34-36 | the root is returned exactly when the root id is set (non-empty) and stored |
| FolderTrees.FolderTree.GetAllNodes | bot/src/internal/tree-node.lib.ts:41-43 | one entry per stored node, and the entries are exactly the stored nodes |
| FolderTrees.FolderTree.GetParent | bot/src/internal/tree-node.lib.ts:48-50 | the parent is returned exactly when the node has a non-empty parent id that is stored |
| FolderTrees.FolderTree.GetChildren | bot/src/internal/tree-node.lib.ts:55-59 | the result is the stored node of each child id, in the order of the ids, with unstored ids skipped (by `Resolve`) |
| FolderTrees.ResolveOne | bot/src/internal/tree-node.lib.ts:56-58 | one id gives its stored node, or nothing when it is not stored |
| FolderTrees.ResolveAppend | bot/src/internal/tree-node.lib.ts:56-58 | looking up two runs of ids one after the other gives the two results one after the other, so order is kept and each missing id is dropped where it stands |
| FolderTrees.FolderTree.GetPath | bot/src/internal/tree-node.lib.ts:64-74 | the loop returns the chain of ancestors from the root down to the node |
| FolderTrees.FolderTree.PathChain | bot/src/internal/tree-node.lib.ts:64-74 | the path ends at the node, starts at a node without a parent, and each element's parent is the one before it |
| FolderTrees.FolderTree.GetDepth | bot/src/internal/tree-node.lib.ts:79-89 | the loop returns the number of parent links above the node |
| FolderTrees.FolderTree.DepthUnique | bot/src/internal/tree-node.lib.ts:79-89 | a node has only one depth |
| FolderTrees.FolderTree.DepthStep | bot/src/internal/tree-node.lib.ts:79-89 | the depth is 0 exactly for a node without a parent, and a child is one deeper than its parent |
| FolderTrees.FolderTree.PathLengthIsDepthPlusOne | bot/src/internal/tree-node.lib.ts:64-89 | when all parents resolve, the path is one longer than the depth |
| FolderTrees.FolderTree.ForEachNode | bot/src/internal/tree-node.lib.ts:94-101 | without a start node or a root it fails; otherwise the visit starts at the start node or the root |
| FolderTrees.FolderTree.Traverse | bot/src/internal/tree-node.lib.ts:106-113 | pre-order: the node is visited first |
| FolderTrees.FolderTree.ParentVisitedFirst | bot/src/internal/tree-node.lib.ts:106-113 | in the pre-order visit every node other than the start appears after its parent |
| FolderTrees.FolderTree.ParentVisitedFirstAll | bot/src/internal/tree-node.lib.ts:106-113 | the same holds for the visit of a list of children |
| FolderTrees.FolderTree.GetFilesByExtension | bot/src/internal/tree-node.lib.ts:134-144 | fails exactly without a root; otherwise returns exactly the visited files with that extension, in visit order |
| FolderTrees.FilesWithSpec | bot/src/internal/tree-node.lib.ts:137-141 | a node is kept exactly when it is a file with the given extension |
| FolderTrees.FolderTree.AddNode | bot/src/internal/tree-node.lib.ts:149-178 | the node is stored under the id of its path; the parent gains the id unless it lists it already; the root is set when there is no parent; the index invariant is kept |
| FolderTrees.InsertedNode | bot/src/internal/tree-node.lib.ts:152-164 | the stored node carries the given properties and no children (its own id, if it is its own parent) |
| FolderTrees.InsertedLinks | bot/src/internal/tree-node.lib.ts:164-171 | children lists stay duplicate-free; a present parent lists the new id; no other node changes |
| FolderTrees.InsertedKeys | bot/src/internal/tree-node.lib.ts:164 | the ids grow by exactly the new id |
| FolderTrees.IndexesInserted | bot/src/internal/tree-node.lib.ts:164 | the insertion-order index still lists every id once |
| FolderTrees.FolderTree.GetStats | bot/src/internal/tree-node.lib.ts:190-210 | the node count, the file and directory counts add up to it, and the size is the sum of the file sizes |
| FolderTrees.FileCount | bot/src/internal/tree-node.lib.ts:195-202 | no more files are counted than there are nodes |
| FolderTrees.FolderTree.ToJson | bot/src/internal/tree-node.lib.ts:248-254 | the snapshot keeps the root id and one entry per node |
| FolderTrees.FolderTree.FromJson | bot/src/internal/tree-node.lib.ts:259-266 | the new tree holds exactly the snapshot's root id and entries, in the snapshot's order |
| FolderTrees.JsonRoundTrip | bot/src/internal/tree-node.lib.ts:248-266 | reading back a tree's snapshot yields the same root id, nodes and order |
| FolderTrees.EntryMapSize | bot/src/internal/tree-node.lib.ts:264 | entries with distinct keys give a map with one key per entry |
| FolderTreeFactory.GetFileExtension | bot/src/internal/tree-node.lib.ts:358-361 | no extension exactly when `extname` is empty; otherwise `extname` without its dot |
| FolderTreeFactory.PropsOf | bot/src/internal/tree-node.lib.ts:310-321 | a node is a directory exactly for a directory entry, only regular files carry an extension, and the relative path is never empty (`'.'` for the base) |
| FolderTreeFactory.Reached | bot/src/internal/tree-node.lib.ts:326-336 | the loop gets past every entry before the first visible entry whose `stat` fails, and stops there |
| FolderTreeFactory.SubtreeIds | bot/src/internal/tree-node.lib.ts:309-336 | a failing entry adds nothing; otherwise it adds its own id first, then its children's subtrees |
| FolderTreeFactory.SortNodes | bot/src/internal/tree-node.lib.ts:339-345 | sorting is a permutation |
| FolderTreeFactory.SortNodesSorted | bot/src/internal/tree-node.lib.ts:339-345 | for a total-preorder comparator, the result is sorted by the comparison of the source |
| FolderTreeFactory.InsertSorted | bot/src/internal/tree-node.lib.ts:340-345 | inserting into a sorted list keeps it sorted |
| FolderTreeFactory.LeqTotalPreorder | bot/src/internal/tree-node.lib.ts:340-345 | the node comparison is total and transitive when `localeCompare` is |
| FolderTreeFactory.SortedMeansDirectoriesFirst | bot/src/internal/tree-node.lib.ts:338-345 | in a sorted list no file comes before a directory, and same-type nodes are in name order |
| FolderTreeFactory.IdsOfPermutation | bot/src/internal/tree-node.lib.ts:348 | reordered children give the same multiset of ids |
| FolderTreeFactory.ResolveIds | bot/src/internal/tree-node.lib.ts:339-348 | looking the children up and taking their ids gives back the child ids |
| FolderTreeFactory.SortStep | bot/src/internal/tree-node.lib.ts:339-348 | after the sort the directory's children are sorted, the same multiset, and no node's label changes |
| FolderTreeFactory.SortChildren | bot/src/internal/tree-node.lib.ts:339-348 | only the directory's own child list changes: it becomes a sorted permutation of itself |
| FolderTreeFactory.InsertedAt | bot/src/internal/tree-node.lib.ts:149-178 | adding a new node under a stored parent: the new node, the parent's extended list, and no other change |
| FolderTreeFactory.ListingStep | bot/src/internal/tree-node.lib.ts:330-336 | one entry more adds that entry's subtree ids, and a child id unless it is hidden |
| FolderTreeFactory.HiddenStep | bot/src/internal/tree-node.lib.ts:332 | a hidden entry leaves the tree as it is |
| FolderTreeFactory.LoopStep | bot/src/internal/tree-node.lib.ts:330-336 | building one visible child keeps the loop invariant: the nodes added so far, the children in entry order, every reached entry's subtree mirrored, and sorted children in every directory below whose listing was read to its end |
| FolderTreeFactory.LoopShape | bot/src/internal/tree-node.lib.ts:333-334 | building one visible child adds exactly its subtree's ids, links its root after the earlier children, and leaves the nodes placed before untouched |
| FolderTreeFactory.LoopPlaced | bot/src/internal/tree-node.lib.ts:330-336 | the nodes placed for earlier entries, the mirroring of their subtrees and the sorted children of their read directories all survive the build of the next child |
| FolderTreeFactory.SortedWhereReadKept | bot/src/internal/tree-node.lib.ts:338-348 | a directory's sorted children stay sorted while other nodes' children change |
| FolderTreeFactory.ReadDirSorted | bot/src/internal/tree-node.lib.ts:326-351 | after its loop, a directory whose listing was read to its end has sorted children, and the directories below keep theirs |
| FolderTreeFactory.LeafBuilt | bot/src/internal/tree-node.lib.ts:309-322 | a file, special entry or unreadable directory adds exactly its own node |
| FolderTreeFactory.DirBuilt | bot/src/internal/tree-node.lib.ts:309-351 | a readable directory adds its node and its subtrees, and every node of them mirrors its entry; when its loop reached the end of the listing its children are sorted, and so are those of every directory below whose own listing was read to its end |
| FolderTreeFactory.DirSorted | bot/src/internal/tree-node.lib.ts:338-348 | sorting one directory leaves the directories below it sorted |
| FolderTreeFactory.IntactReached | bot/src/internal/tree-node.lib.ts:326-336 | when no visible entry fails, the loop reaches the end |
| FolderTreeFactory.BuildTree | bot/src/internal/tree-node.lib.ts:303-353 | rejects exactly when `stat` fails; otherwise it adds exactly the subtree's nodes, in pre-order, under the parent; every node of the subtree carries its own entry's type, size, extension, relative and absolute path and its parent's id, and its children are the ids of its visible reached entries (`Mirrors`); every directory of the subtree whose listing was read to its end has sorted children, even when a child of a directory above it failed, and when no `stat` below fails every directory does |
| FolderTreeFactory.BuildEntries | bot/src/internal/tree-node.lib.ts:326-336 | the loop builds the entries up to the first failing one, each visible one mirrored under the directory, and says whether it reached the end |
| FolderTreeFactory.BuildEntry | bot/src/internal/tree-node.lib.ts:330-336 | one pass of the loop: skip a hidden entry, build a visible one with its subtree mirrored under the directory, or report its failure |
| FolderTreeFactory.Create | bot/src/internal/tree-node.lib.ts:276-298 | `ok` exactly for a directory; otherwise the `stat` error or "not a directory"; the tree's root is the folder, its nodes and order are those of the whole walk, every node mirrors its entry (type, size, extension, paths, parent, children), and every directory whose listing was read to its end has sorted children |
| FolderTreeFactory.MirrorsKept | bot/src/internal/tree-node.lib.ts:303-353 | a mirrored subtree stays mirrored while nodes outside it are added or changed |
| FolderTreeFactory.ListingMirrorsKept | bot/src/internal/tree-node.lib.ts:330-336 | the mirrored subtrees of a listing's reached entries stay mirrored while nodes outside them change |
| FolderTreeFactory.DirMirrored | bot/src/internal/tree-node.lib.ts:314-348 | a directory node with its own props and its children's ids, over mirrored entry subtrees, mirrors the directory |
| FolderTreeFactory.MirrorsLinkBack | bot/src/internal/tree-node.lib.ts:149-178 | in a mirrored subtree every child listed by a node is stored and names that node as its parent, and every node below the root has a parent |
| FolderTreeFactory.ListingLinksBack | bot/src/internal/tree-node.lib.ts:330-336 | the same for the reached entries of a listing: each visible child names the directory as its parent |
| FolderTreeFactory.CreatedTreeLinked | bot/src/internal/tree-node.lib.ts:276-298 | in a tree built by `create`, parent and child links agree both ways, the root has no parent and every other node has one |
| FolderTreeFactory.OneFileBuilt | bot/src/internal/tree-node.lib.ts:314-336 | a folder with one visible file: the file's node has the file's size and extension, its name as relative path, the folder as parent, and is the folder's only child |
| FolderTreeFactory.OneFileMirrored | bot/src/internal/tree-node.lib.ts:314-336 | the same facts from the mirroring clause alone |
| CheckpointUtil.HashInput | bot/src/utils/checkpoint.util.ts:8 | the hashed text is the three parameters concatenated: it starts with the group id, the folder path follows it, and it ends with the base path |
| CheckpointUtil.CheckpointHash | bot/src/utils/checkpoint.util.ts:7-10 | the hash is the digest of the three parameters written one after the other, with no separator |
| CheckpointUtil.CheckpointFilename | bot/src/utils/checkpoint.util.ts:15-18 | the file name wraps the hash, and the hash can be read back from it |
| CheckpointUtil.HashOfFilename | bot/src/utils/checkpoint.util.ts:17 | a hash read from a name rebuilds that name |
| CheckpointUtil.WrapHash | bot/src/utils/checkpoint.util.ts:17 | reading the hash of a wrapped hash gives the hash back |
| CheckpointUtil.SameFileIffSameHash | bot/src/utils/checkpoint.util.ts:7-18 | two uploads share a checkpoint file exactly when their hashes are equal |
| CheckpointUtil.ConcatenationDecides | bot/src/utils/checkpoint.util.ts:8-9 | parameters with the same concatenation share a file |
| CheckpointUtil.SeparatorFreeCollision | bot/src/utils/checkpoint.util.ts:8 | two different parameter triples share a checkpoint file, because no separator is used |
| CheckpointManager.FreshCheckpoint | bot/src/managers/checkpoint.manager.ts:34-51 | the new record has zero counts, no completed files, the upload's parameters (`dryRun` false unless given), and is balanced |
| CheckpointManager.Loaded | bot/src/managers/checkpoint.manager.ts:21-54 | a stored record that parses is used; a missing or corrupted file gives a fresh record |
| CheckpointManager.AfterCompleted | bot/src/managers/checkpoint.manager.ts:66-73 | a new path is appended and counted as a success; an already completed one changes nothing |
| CheckpointManager.AfterFailed | bot/src/managers/checkpoint.manager.ts:78-84 | the failure and processed counts go up by one and nothing else is counted |
| CheckpointManager.WithTotalFiles | bot/src/managers/checkpoint.manager.ts:89-93 | only the total changes |
| CheckpointManager.Apply | bot/src/managers/checkpoint.manager.ts:66-93 | before `load` every operation is a no-op |
| CheckpointManager.ApplyKeepsBalanced | bot/src/managers/checkpoint.manager.ts:66-93 | each operation keeps processed = successes + failures, successes = completed files, and no duplicates |
| CheckpointManager.RunKeepsBalanced | bot/src/managers/checkpoint.manager.ts:66-93 | any sequence of operations keeps a balanced record balanced |
| CheckpointManager.FreshRunBalanced | bot/src/managers/checkpoint.manager.ts:34-93 | a record started fresh stays balanced whatever is done to it |
| CheckpointManager.RunBeforeLoad | bot/src/managers/checkpoint.manager.ts:66-93 | before `load` no sequence of operations creates a record |
| CheckpointManager.CompletedOnlyGrows | bot/src/managers/checkpoint.manager.ts:66-93 | completed files are only ever appended to |
| CheckpointManager.MarkCompletedIdempotent | bot/src/managers/checkpoint.manager.ts:66-73 | marking the same path twice is the same as marking it once |
| CheckpointManager.FailedLeavesCompleted | bot/src/managers/checkpoint.manager.ts:78-84 | a failure never adds or removes a completed file |
| CheckpointManager.Manager.constructor | bot/src/managers/checkpoint.manager.ts:10-16 | the file name is the checkpoint file name of the options, and nothing is loaded |
| CheckpointManager.Manager.Load | bot/src/managers/checkpoint.manager.ts:21-54 | the manager holds and returns the loaded record |
| CheckpointManager.Manager.IsCompleted | bot/src/managers/checkpoint.manager.ts:59-61 | true exactly when a record is loaded and lists the path |
| CheckpointManager.Manager.MarkCompleted | bot/src/managers/checkpoint.manager.ts:66-73 | the record becomes `Apply` of the completion |
| CheckpointManager.Manager.MarkFailed | bot/src/managers/checkpoint.manager.ts:78-84 | the record becomes `Apply` of the failure |
| CheckpointManager.Manager.SetTotalFiles | bot/src/managers/checkpoint.manager.ts:89-93 | the record becomes `Apply` of the new total |
| CheckpointManager.Manager.Save | bot/src/managers/checkpoint.manager.ts:98-107 | a loaded record is written under the file name when the disk accepts the write; otherwise the disk is unchanged |
| CheckpointManager.Manager.Cleanup | bot/src/managers/checkpoint.manager.ts:112-121 | the file is removed when removal succeeds; otherwise the disk is unchanged |
| CheckpointManager.Manager.GetStats | bot/src/managers/checkpoint.manager.ts:126-128 | the record's counts when loaded, none otherwise |
| CheckpointManager.Manager.IsResume | bot/src/managers/checkpoint.manager.ts:140-142 | true exactly when a loaded record lists a completed file |
| CheckpointManager.SavedIsLoaded | bot/src/managers/checkpoint.manager.ts:21-107 | loading a saved record gives that record back |
| Tagger.SanitizeTag | bot/src/services/tagger.service.ts:15-26 | the result holds only lower-case letters, digits and `_`, and is no longer than the input |
| Tagger.SanitizeFixed | bot/src/services/tagger.service.ts:15-26 | a text already of that shape is left as it is |
| Tagger.SanitizeIdempotent | bot/src/services/tagger.service.ts:15-26 | sanitising twice is sanitising once |
| Tagger.SanitizeBreak | bot/src/services/tagger.service.ts:19 | a run of blanks and dashes between two words becomes one `_` |
| Tagger.GeneratePathTag | bot/src/services/tagger.service.ts:28-34 | the path tag is of the sanitised shape |
| Tagger.SegmentTags | bot/src/services/tagger.service.ts:31-32 | every tag is sanitised and non-empty, and there are no more tags than segments |
| Tagger.SegmentTagsAppend | bot/src/services/tagger.service.ts:31-32 | one more segment adds its sanitised tag at the end, or nothing when that tag is empty: the tags are the segments' tags in order |
| Tagger.PathTagOfSegments | bot/src/services/tagger.service.ts:28-34 | for directories and a file name without `/`, the path tag is the directories' non-empty sanitised tags joined by `_`, and the file name is ignored |
| Tagger.JoinTags | bot/src/services/tagger.service.ts:33 | joining sanitised tags with `_` keeps the shape |
| Tagger.PathTagIgnoresFileName | bot/src/services/tagger.service.ts:29-30 | the last segment (the file name) never reaches the tag |
| Tagger.PathTagOfTwoDirectories | bot/src/services/tagger.service.ts:28-34 | two directories and a file give the two sanitised directory names joined by `_` |
| Tagger.PathAfterBase | bot/src/services/tagger.service.ts:43-49 | nothing when the base is not found; otherwise the text after the first occurrence and one separator |
| Tagger.Classify | bot/src/services/tagger.service.ts:36-57 | the base tag always comes first; a path tag follows exactly when the base is found and the tag is not empty |
| Tagger.ClassifyTagsAreHashtags | bot/src/services/tagger.service.ts:36-57 | every tag is `#` followed by sanitised text |
| Tagger.ClassifyBelowBase | bot/src/services/tagger.service.ts:43-53 | a file below the base gets the base tag and the tag of its directories |
| Tagger.ClassifyExample | bot/src/services/tagger.service.test.ts:8-15 | the expected tags for the sample path |
| Tagger.ExamplePathTag | bot/src/services/tagger.service.test.ts:14 | the sample's path tag |
| Tagger.SanitizeFullCycle | bot/src/services/tagger.service.test.ts:13 | the sample's base tag |
| Hashtag.LeadingDigits | bot/src/utils.ts:11 | the longest run of digits at the start |
| Hashtag.MoveNumber | bot/src/utils.ts:11 | the moved title is longer than the leading number |
| Hashtag.MoveNumberShape | bot/src/utils.ts:11 | the moved title ends in one space and the leading number; without a leading number it is the trimmed title and a space |
| Hashtag.NoLeadingDigits | bot/src/utils.ts:11 | a title without a leading number is trimmed and followed by one space |
| Hashtag.LeadingNumberMoved | bot/src/utils.ts:9-11 | a leading number and the separators after it move to the end, after one space |
| Hashtag.StripExtension | bot/src/utils.ts:14 | either nothing is removed, or exactly a final dot and the letters and digits after it |
| Hashtag.StripExtensionOf | bot/src/utils.ts:14 | a final `.ext` is removed |
| Hashtag.ExtensionNeverStripped | bot/src/utils.ts:11-14 | after the number is moved, the extension step never changes the text |
| Hashtag.Underscored | bot/src/utils.ts:17-20 | only letters, digits and `_` remain, and never two `_` in a row |
| Hashtag.TrimUnderscores | bot/src/utils.ts:20 | no `_` at either end, and the result is a slice of the input |
| Hashtag.Tidy | bot/src/utils.ts:17-23 | the result has the hashtag shape: lower case, letters, digits and single inner `_` |
| Hashtag.ParseToTelegramHashtagAsWritten | bot/src/utils.ts:5-24 | the result always has the hashtag shape |
| Hashtag.AsWrittenIgnoresExtension | bot/src/utils.ts:11-23 | the function as written equals the one without the extension step |
| Hashtag.AsWrittenKeepsExtension | bot/src/utils.ts:11-23 | `aula.mp4` becomes `aula_mp4`: the extension stays in the tag |
| Hashtag.ParseToTelegramHashtag | bot/src/utils.ts:5-24 | the result always has the hashtag shape |
| Hashtag.CorrectedDropsExtension | bot/src/utils.ts:13-14 | a final `.ext` does not reach the tag |
| Hashtag.CorrectedStripsExtension | bot/src/utils.ts:13-23 | `aula.mp4` becomes `aula` |
| Hashtag.NumberedTitle | bot/src/utils.ts:9-11 | `001 - curso docker` has the shape `curso_docker_001` in both versions |
| Hashtag.CourseTitleExample | bot/src/utils.ts:2 | the commented example, with `curso` spelled as in its input |
| Hashtag.VideoNameExample | bot/src/utils.ts:11-14 | a video name with an extension, in both versions |
| Paths.Basename | bot/src/services/file-upload.service.ts:53-58 | the last path segment, with no `/` in it |
| Paths.Extname | bot/src/services/file-upload.service.ts:18 | empty, or a final `.xyz` of the base name without another dot |
| Paths.ParsedName | group-bot/src/handlers/video-categorizer.handler.ts:19 | the base name without its extension |
| Paths.BasenameOfJoin | bot/src/internal/tree-node.lib.ts:310-334 | the base name of a joined path is the entry's name |
| Paths.ExtnameOf | bot/src/services/file-upload.service.ts:18 | a name `stem.ext` has the extension `.ext` |
| Telegram.DetectFileType | bot/src/services/file-upload.service.ts:17-33 | video, audio or photo exactly when the lower-cased extension is in that type's list, and a name without a dot is a document |
| Telegram.FileSize | bot/src/external/file-upload.service.ts:61-69 | the size from `stat`, or 0 when `stat` throws |
| Telegram.ExtensionType | bot/src/services/file-upload.service.ts:20-32 | video, audio, photo in that order of precedence, and a document otherwise |
| Telegram.ExtensionListsDisjoint | bot/src/services/file-upload.service.ts:20-22 | no extension is in two lists |
| Telegram.ListedExtensionsAreLower | bot/src/services/file-upload.service.ts:18-22 | the listed extensions are lower case, so lower-casing the input is enough |
| Telegram.DetectByExtension | bot/src/services/file-upload.service.ts:17-33 | the type of `stem.ext` is that of `.ext`, case-insensitively |
| Telegram.NoDotIsDocument | bot/src/services/file-upload.service.ts:17-33 | a name without a dot is a document |
| Telegram.MethodFor | bot/src/services/file-upload.service.ts:70-84 | each file type is sent by its own Bot API method |
| Telegram.CaptionOr | bot/src/services/file-upload.service.ts:67 | a non-empty caption is used, otherwise the file name |
| Telegram.CountsAddUp | bot/src/commands/upload-file.command.ts:98-99 | successes and failures add up to the number of results |
| Telegram.CountsAppend | bot/src/commands/upload-file.command.ts:98-99 | one more result adds one to exactly one of the counts |
| Telegram.BatchAt | bot/src/services/file-upload.service.ts:112-120 | the k-th result is the upload of the k-th path |
| Telegram.BatchCalls | bot/src/services/file-upload.service.ts:112-120 | the batch makes one request per upload that makes one |
| ServiceUpload.RequestFor | bot/src/services/file-upload.service.ts:59-84 | the request goes to the group, names the file by its base name, uses the method of the file's detected type, the topic read as a number (blank or decimal digits; anything else is NaN), and the caption or else the file name |
| ServiceUpload.UploadFile | bot/src/services/file-upload.service.ts:45-104 | a missing file fails without a request; a present one is sent once by its type's method; success exactly when the API answers; the thrown error's message otherwise |
| ServiceUpload.TopicThread | bot/src/services/file-upload.service.ts:66 | a decimal topic id becomes that thread number |
| ServiceUpload.UploadFiles | bot/src/services/file-upload.service.ts:109-123 | the loop uploads each trimmed path in order, one result each |
| ServiceUpload.ResultPerPath | bot/src/services/file-upload.service.ts:109-123 | one result per path, the k-th being the upload of the trimmed k-th path |
| ServiceUpload.OneCallPerPresentFile | bot/src/services/file-upload.service.ts:109-123 | the batch sends exactly one request per existing file |
| ExternalUpload.UploadFile | bot/src/external/file-upload.service.ts:83-168 | as the other service, but a dry run reports the type and size and sends nothing, and results carry the dry-run flag |
| ExternalUpload.AgreesWithService | bot/src/external/file-upload.service.ts:83-168 | without dry run, it makes the same request and the same outcome as the other service |
| ExternalUpload.RateLimitDelay | bot/src/external/file-upload.service.ts:18-28 | a wait happens exactly when rate limiting is on with a positive delay |
| ExternalUpload.UploadFiles | bot/src/external/file-upload.service.ts:173-195 | the loop uploads each trimmed path in order, and its waits and uploads follow the schedule |
| ExternalUpload.ScheduleUploads | bot/src/external/file-upload.service.ts:176-191 | every path is uploaded once, in order |
| ExternalUpload.ScheduleWaits | bot/src/external/file-upload.service.ts:179-182 | n uploads wait n-1 times when rate limiting is on, never otherwise |
| ExternalUpload.FirstUploadUndelayed | bot/src/external/file-upload.service.ts:179-182 | the first upload comes before any wait |
| ExternalUpload.DelayBetweenUploads | bot/src/external/file-upload.service.ts:179-184 | every wait sits between two uploads |
| ExternalUpload.LastIsUpload | bot/src/external/file-upload.service.ts:176-192 | the batch ends with an upload, not a wait |
| ExternalUpload.BatchRequests | bot/src/external/file-upload.service.ts:173-195 | requests go out only for existing files and never in a dry run |
| UploadCommand.ListedPaths | bot/src/commands/upload-file.command.ts:55 | a line is a listed path exactly when it is a line of the file that is not blank |
| UploadCommand.NonBlankLines | bot/src/commands/upload-file.command.ts:55 | no line is invented |
| UploadCommand.NonBlankLinesSpec | bot/src/commands/upload-file.command.ts:55 | a line is kept exactly when it is not blank |
| UploadCommand.TopicIdAsWritten | bot/src/commands/upload-file.command.ts:60-69 | the guard as written accepts `FullCycle` and every inherited object member |
| UploadCommand.InheritedTextIsNaN | bot/src/commands/upload-file.command.ts:69 | an inherited member's text is not a number |
| UploadCommand.PrototypeNamePassesGuard | bot/src/commands/upload-file.command.ts:64-69 | `toString` passes the guard and yields a topic id that is not a number |
| UploadCommand.TopicId | bot/src/commands/upload-file.command.ts:60-69 | only `FullCycle` is mapped, to topic 523 |
| UploadCommand.CheckedUpload | bot/src/commands/upload-file.command.ts:74-94 | a missing file is reported under its path without a request; an existing one is uploaded without a caption |
| UploadCommand.UploadListed | bot/src/commands/upload-file.command.ts:73-95 | the loop handles each trimmed listed path in order |
| UploadCommand.FolderResults | bot/src/commands/upload-file.command.ts:73-95 | one result per listed line, and one request per existing file |
| UploadCommand.UploadFolder | bot/src/commands/upload-file.command.ts:42-112 | stops on a missing or unreadable listing or when the topic guard `topicOf` rejects the base; otherwise uploads every listed line under the topic `topicOf` gives and counts successes and failures. With `TopicIdAsWritten` it runs the guard as written, with `TopicId` as intended |
| UploadCommand.AsWrittenUploadsWithoutThread | bot/src/commands/upload-file.command.ts:64-95 | with the guard as written and the base `toString`, every existing listed file is uploaded once, each request without a thread |
| UploadCommand.UploadMultipleFiles | bot/src/commands/upload-file.command.ts:117-134 | returns the service's results and counts successes and failures, which add up |
| Handlers.Execute | bot/src/handlers/base.handler.ts:45-60 | validation runs first; handle runs exactly on `true`, at most once; an error is logged exactly when a hook fails; the promise always resolves |
| Handlers.NeverRejects | bot/src/handlers/base.handler.ts:45-60 | whatever the hooks do, `execute` resolves |
| Chainable.ChainableHandler.constructor | bot/src/handlers/chainable.handler.ts:19-28 | wraps the handler, with no next handler |
| Chainable.ChainableHandler.SetNext | bot/src/handlers/chainable.handler.ts:35-38 | links and returns the given handler |
| Chainable.ChainableHandler.Validation | bot/src/handlers/chainable.handler.ts:47-49 | never throws |
| Chainable.AlwaysValid | bot/src/handlers/chainable.handler.ts:47-49 | validation is always `true`, because the wrapped `execute` never rejects |
| Chainable.OwnExecution | bot/src/handlers/chainable.handler.ts:47-59 | its own `execute` calls both hooks, logs nothing and resolves |
| Chainable.ChainableHandler.Execute | bot/src/handlers/chainable.handler.ts:67-73 | returns the executions of the chain from this handler on (`Runs`): every wrapped handler runs exactly once, in chain order |
| Chainable.RunsOf | bot/src/handlers/chainable.handler.ts:67-73 | the chain's executions are one per handler, each the execution of that handler's wrapped handler, in chain order |
| EventManager.EventHandlerManager.constructor | bot/src/lib/event-handler.manager.ts:6 | no chains |
| EventManager.EventHandlerManager.Register | bot/src/lib/event-handler.manager.ts:8-19 | a new event's chain is the handler alone; otherwise the handler is appended to the event's chain; other events are unchanged |
| EventManager.EventHandlerManager.TailOf | bot/src/lib/event-handler.manager.ts:13-16 | the walk stops at the last handler of the event's chain |
| EventManager.Tail | bot/src/lib/event-handler.manager.ts:13-16 | following `next` from the head reaches the chain's last handler |
| EventManager.LinkAfter | bot/src/lib/event-handler.manager.ts:17 | after `setNext` the links match the chain with the handler appended |
| EventManager.EventHandlerManager.Dispatch | bot/src/lib/event-handler.manager.ts:24 | every handler registered for the event runs once, in registration order |
| EventManager.ChainOf | bot/src/lib/event-handler.manager.ts:10-18 | each event's chain starts at the stored head and is linked through `next` |
| EventManager.NoSharedHandlers | bot/src/lib/event-handler.manager.ts:8-19 | no handler sits twice in a chain or in two chains |
| EventManager.NewEvent | bot/src/lib/event-handler.manager.ts:10-11 | a new one-handler chain keeps the bookkeeping well formed |
| EventManager.Appended | bot/src/lib/event-handler.manager.ts:12-18 | appending after the tail keeps the bookkeeping well formed |
| VideoCategorizer.Validation | group-bot/src/handlers/video-categorizer.handler.ts:6-10 | accepts exactly a video whose caption contains `@`, and never throws |
| VideoCategorizer.Tag | group-bot/src/handlers/video-categorizer.handler.ts:34-35 | `#` followed by exactly the non-white-space characters of the text |
| VideoCategorizer.CaptionParts | group-bot/src/handlers/video-categorizer.handler.ts:19-22 | one piece more than there are dashes in the name |
| VideoCategorizer.FileNameOf | group-bot/src/handlers/video-categorizer.handler.ts:13-17 | a file name is used only when the message has a video and the name is not empty |
| VideoCategorizer.Categorize | group-bot/src/handlers/video-categorizer.handler.ts:24-46 | one or two requests; replies answer the message; a failed caption edit is always followed by the error reply, so it rejects exactly when a reply fails |
| VideoCategorizer.Handle | group-bot/src/handlers/video-categorizer.handler.ts:12-47 | requests exactly when there is a file name; replies answer the message; a failed caption edit is followed by the error reply; rejects exactly without a message or video, or when the last request (a reply) fails |
| VideoCategorizer.CategorizeEdits | group-bot/src/handlers/video-categorizer.handler.ts:24-39 | the caption is edited exactly with three or more pieces, to the caption of the first three |
| VideoCategorizer.CategorizeFormatError | group-bot/src/handlers/video-categorizer.handler.ts:24-31 | the format-error reply is sent exactly with fewer than three pieces |
| VideoCategorizer.EditsIff | group-bot/src/handlers/video-categorizer.handler.ts:19-39 | the caption is edited exactly when the name has two or more dashes before its extension |
| VideoCategorizer.FormatErrorIff | group-bot/src/handlers/video-categorizer.handler.ts:19-31 | the format error is sent exactly when it has fewer than two |
| VideoCategorizer.NewCaption | group-bot/src/handlers/video-categorizer.handler.ts:36 | the caption is the title, a blank line, then the course tag, a line break and the lesson tag |
| VideoCategorizer.TagOneLine | group-bot/src/handlers/video-categorizer.handler.ts:34-35 | a tag holds no line break |
| VideoCategorizer.CaptionLines | group-bot/src/handlers/video-categorizer.handler.ts:36 | the caption splits back into title, empty line, course tag and lesson tag |
| VideoCategorizer.ExtraPiecesDropped | group-bot/src/handlers/video-categorizer.handler.ts:33 | pieces after the third do not change anything |
| VideoCategorizer.ValidatedExecution | group-bot/src/handlers/video-categorizer.handler.ts:6-47 | on an accepted update both hooks run, and an error is logged exactly when `handle` rejects |

## Left out

- ServiceUpload.RequestFor / Strings.NumberOf: only blank strings and strings of decimal digits (with surrounding white space) are read as numbers. The other forms JavaScript's `Number` accepts are read as NaN, so the request is modelled without a thread, where the source would pass a number. These forms are a sign (`+5`, `-3`), a fraction (`1.5`), an exponent (`1e3`), a hexadecimal, binary or octal prefix (`0x1f`, `0b1`, `0o7`) and `Infinity`. The thread id is a `nat`, so negative and fractional ids have no value in the model.
- Logging, the spinner of the commands, `process.exit`, and the info logged by `create` (including its `getStats` call) are left out. They change no modelled state.
- The clock is a `Clock` parameter (`Date.now()`, `toISOString`). The rate-limit wait is an event in a schedule, not real time.
- md5 is a function parameter (`idOf`, `md5`) with no body. Node ids are assumed collision-free: `FolderTreeFactory.Create` requires the ids of the walked paths to be distinct.
- JSON text is not modelled. `toJSON` and `fromJSON` work on a structured `Snapshot`. A checkpoint file holds a record or is `Corrupted`.
- `path.resolve` is not modelled: the absolute path is a parameter of `FolderTreeFactory.Create`. `path.relative` is computed step by step from the base (`'.'` for the base itself).
- File system errors other than "no such file" are not modelled. A `stat` failure is `Missing` and carries only the ENOENT text. Special files (neither file nor directory) are kept as nodes that are not directories.
- Node objects are values. In the source `node.childrenIds = …` updates the object shared by the map and by any caller holding it. Here the map entry is replaced.
- FolderTrees.FolderTree.GetPath and FolderTrees.FolderTree.GetDepth require the node's parent chain to end (`Rooted`). The source loops forever on a cycle.
- FolderTrees.FolderTree.Traverse, ForEachNode and GetFilesByExtension require a rank that decreases from parent to child. The model does not prove that a tree built by `create` has such a rank (`FolderTreeFactory.CreatedTreeLinked` proves only that its parent and child links agree), and a tree read from arbitrary JSON may not have one.
- FolderTrees.FolderTree.GetStats: the total size is the byte count. The `formatFileSize` text is not modelled, because it uses floating point.
- `formatFileSize` (both files), `printTree` (console output) and `findNodes` (an arbitrary callback predicate) are not modelled.
- FolderTreeFactory.SortNodes: sort stability is not proved. `Array.prototype.sort` is stable and the model is an insertion sort, but only "sorted permutation" is stated.
- `localeCompare` is an abstract comparator assumed to be a total preorder.
- Unicode NFD normalisation and the removal of combining marks are not modelled (`sanitizeTag`, `parseToTelegramHashtag`). Only ASCII letters are lower-cased, and other non-ASCII characters are treated as non-alphanumeric.
- `uploadSingleFile` is not modelled: it only prints the outcome and exits.
- `createReadStream` failures and the exact `InputFile` payload are not modelled. The Bot API is an oracle answering each send request.
- `getFilename` of the checkpoint manager is the `filename` field itself, so it has no separate member.
- `attach` registers a listener with the bot, which is not modelled. `EventManager.EventHandlerManager.Dispatch` is that listener.
- EventManager.EventHandlerManager.Register requires the handler to be new to the manager, with no `next` handler. Registering a linked handler in the source would splice its chain in or make a cycle.
- Handlers are `ChainableHandler`s only. A plain `BaseHandler` has no `setNext`, and registering one second would throw a TypeError in the source.
- VideoCategorizer.Handle: the Bot API's acceptance of each request is an oracle (`succeeds`). The source throws a TypeError when `handle` is called without a message or video, and the model records that as a rejection.
- Integer widths: counts, sizes and message ids are unbounded integers. The source's doubles would lose precision only above 2^53.

## Findings

| source | as written | input that shows it | evidently intended | confidence | as-written member | corrected member |
|---|---|---|---|---|---|---|
| bot/src/utils.ts:11-14 | The number is moved to the end (line 11) before the extension is stripped (line 14). The text then always ends in a space or in digits after a space, so the extension step never matches. | `aula.mp4` gives `aula_mp4` | Strip the extension first, as the comment at line 13 says, so `aula.mp4` gives `aula`. The header example at line 3 (`001 - Nome da aula 1.mp4 -> nome_da_aula_1.mp4`) fits neither version: as written the result is `nome_da_aula_1_mp4_001`, corrected it is `nome_da_aula_1_001` | high, not executed | Hashtag.AsWrittenKeepsExtension | Hashtag.CorrectedStripsExtension |
| bot/src/commands/upload-file.command.ts:64-69 | `referenceBasePath in TOPIC_MAPPING` also holds for members inherited from `Object.prototype`. | `toString` passes the guard, and the topic id becomes the function's source text, which is not a number, so every file of the listing is sent with no thread | Accept only the object's own keys, so only `FullCycle` is mapped | high, not executed | UploadCommand.AsWrittenUploadsWithoutThread | UploadCommand.TopicId |
