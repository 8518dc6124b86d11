# Digital twins, verified

Two in-memory services imitate a file store (Drive) and a mailbox (Gmail). Each is a state
machine driven by requests. This project models both, the text formats the Drive twin
reads, and two checking algorithms that run over their snapshots, and proves what holds
of them over every input and every run.

## How it is built

Each service appears twice. A class (`DriveTwin.DriveTwinService`, `GmailTwin.GmailTwinService`)
has the service's fields and the service's loops; every method is proved to do exactly what a
value-level step, `DriveModel.Apply` or `GmailModel.Apply`, does to the old state, errors
included. The steps are pinned down by laws that say, request by request and without the steps' own helpers,
who may do what and what comes of it. Everything about runs is then proved about those steps.

| Files | Subject |
|---|---|
| `DriveModel`, `DriveTwin` | Drive requests as a value-level step; the service class |
| `DriveLaws`, `DriveSeedLaws` | what requests and seed entries mean, in their own terms |
| `ParentGraph`, `DriveInvariants`, `DriveRuns` | chains of parents; what steps and runs keep |
| `DriveDelete`, `DriveTree`, `DriveSeeding` | the three algorithms over the parent links |
| `DriveHistories` | every state that seeding, accepted or refused, and requests can lead to |
| `DriveSeedOrder`, `DriveSeedCounter` | what the order of a seed list can change, and when it does |
| `FolderPaths` | bottom-up paths, compared with the tree |
| `ResumableUpload`, `Multipart`, `V3Query*` | the protocol and the two formats of the Drive API |
| `GmailModel`, `GmailTwin` | Gmail requests as a value-level step; the service class |
| `GmailLaws`, `GmailStateLaws` | what requests mean, in their own terms |
| `GmailInvariants`, `GmailIds`, `GmailRuns`, `GmailReissue` | references, allocated ids, history ids, runs |
| `GmailThreading`, `GmailSnippets`, `GmailAttachments`, `GmailLabels`, `GmailPaging` | one property each |
| `GmailProper`, `GmailSeeding`, `GmailSeedIds`, `GmailSeededRuns` | what callers must see to; seeding; all invariants together |
| `GmailCounterexamples` | runs after which a natural claim fails |
| `Calendar`, `EventSequence` | dates to milliseconds; matching a list of events |
| `Wrappers`, `Decimal`, `Text`, `SortedKeys` | options and results, decimal numbers, splitting, ordered keys |

Strings are sequences of characters, ordered maps are visited in ascending key order
(`SortedKeys.Sorted`), and both services' counters wrap at 2^64, as they do in the release
build that the Dockerfile makes. Decoding of base64 content is a parameter, `Decoder`, or an
optional value, `Incoming.data`.

## What the code does not promise

Where a natural claim is false of the code, its exact condition is proved, and an input at
which it fails unless the condition shows one at once.

* Deleting an item loops for ever exactly when the item lies on a cycle of parents
  (`DriveDelete.DrainsIffOffCycle`). Two folders and one move, all accepted, lead there
  (`DriveRuns.CycleIsReachable`).
* A successful move keeps the parents acyclic exactly when its destination is outside the
  moved subtree (`DriveInvariants.StepAcyclic`).
* The bottom-up folder path skips names that are empty or "root" and stops at an empty id, so it is the path
  in the tree exactly when no folder on the chain has one of these (`FolderPaths.PathsAgree`). One
  request for a folder named "root" makes the two differ (`FolderPaths.FolderNamedRoot`).
* The order of a seed list never changes which lists are accepted, the items or the contents
  (`DriveSeedOrder.SeedingOrderFree`). It changes the id counter exactly if the list does not decide it:
  an entry with the number 2^64 - 1 wraps the counter, and some other number can be added after it or before
  it and is not matched below it (`DriveSeedCounter.OrderMattersIffUndecided`). Two orders of two entries end with
  the counters 6 and 0 (`DriveSeedCounter.LastNumberOrderMatters`).
* The multipart round trip, for one-line headers, holds exactly for non-empty lists of parts without the
  delimiter inside; framed with line feeds instead of CRLF, also without a CRLF blank line in a body and without
  a carriage return at its end (`Multipart.MultipartRoundTrip`).
* A parsed query is the conjunction of its clauses exactly when no two clauses set the same
  field differently, or two property clauses exclude each other (`V3QueryMatching.MatchIsConjunction`).
  With two names the last one wins (`V3QueryMatching.LastNameWins`).
* An inserted message, and its files, may carry ids that are still to be allocated; allocated ids stay fresh
  exactly when none does (`GmailIds.StepMessagesFresh`, `GmailIds.StepAttachmentsFresh`, `GmailIds.StepFresh`). If it does, a later send can overwrite
  it (`GmailCounterexamples.OverwriteIsReachable`).
* A message stored under the id of a live message takes that one away from its thread. The summaries stay
  right exactly unless it was the latest of another thread and the next one there has another snippet
  (`GmailSnippets.StepSnippets`). Three insertions lead there (`GmailCounterexamples.StaleSummaryIsReachable`).
* An accepted or refused arrival leaves every thread with a message exactly unless it fails after a thread was
  created for it, or takes the id of the only message of another thread (`GmailThreading.StepInhabited`). One refused
  insertion leaves an empty thread (`GmailCounterexamples.EmptyThreadIsReachable`).
* Replies and forwards keep the normalised subject only up to the order in which prefixes are stripped:
  always with "Re: ", and otherwise exactly if what they answer has none of the prefixes stripped earlier
  (`GmailThreading.ReplyKeepsSubject`, `GmailThreading.ForwardKeepsSubject`).

## Model

| member | source | states |
|---|---|---|
| DriveTwin.DriveTwinService.constructor | twins/crates/twin-drive/src/lib.rs:176-202 | the initial state: the root folder, owned by "system", and nothing else |
| DriveTwin.DriveTwinService.NewItemId | twins/crates/twin-drive/src/lib.rs:205-209 | the allocated id carries the old counter, and the 64-bit counter advances |
| DriveTwin.DriveTwinService.CreateFolder | twins/crates/twin-drive/src/lib.rs:495-530 | outcome and whole new state are those of the step, on success and on each error |
| DriveTwin.DriveTwinService.CreateFile | twins/crates/twin-drive/src/lib.rs:531-566 | the same for files |
| DriveTwin.DriveTwinService.ListChildren | twins/crates/twin-drive/src/lib.rs:567-585 | the scan of all items lists exactly the children, in id order |
| DriveTwin.DriveTwinService.GrantRole | twins/crates/twin-drive/src/lib.rs:586-615 | the search and overwrite, or append, equals the recursive grant |
| DriveModel.GrantMeaning | twins/crates/twin-drive/src/lib.rs:211-223 | after a grant the target has exactly the granted role, and every other actor the role it had |
| DriveTwin.DriveTwinService.SetPermission | twins/crates/twin-drive/src/lib.rs:586-615 | outcome and whole new state are those of the step |
| DriveTwin.DriveTwinService.MoveItem | twins/crates/twin-drive/src/lib.rs:616-649 | outcome and whole new state are those of the step; no check for cycles |
| DriveTwin.DriveTwinService.GetItem | twins/crates/twin-drive/src/lib.rs:650-661 | the item, or the error of the check that fails first |
| DriveTwin.DriveTwinService.DeleteItem | twins/crates/twin-drive/src/lib.rs:662-696 | removes exactly the target and its descendants from items and contents; requires only that the request returns |
| DriveTwin.DriveTwinService.UpdateItem | twins/crates/twin-drive/src/lib.rs:697-744 | outcome and whole new state are those of the step, with and without a new parent |
| DriveTwin.DriveTwinService.UploadContent | twins/crates/twin-drive/src/lib.rs:745-787 | outcome and whole new state are those of the step |
| DriveTwin.DriveTwinService.DownloadContent | twins/crates/twin-drive/src/lib.rs:788-808 | the stored bytes, none for an item without bytes, or the error of the check that fails first |
| DriveTwin.DriveTwinService.Handle | twins/crates/twin-drive/src/lib.rs:490-810 | every request that returns does to the service what the step does to its state, and items stay under their own ids |
| DriveLaws.AccessLevels | twins/crates/twin-drive/src/lib.rs:211-223 | from an actor's first permission entry: any lets him view, Editor and Owner let him edit, Owner alone lets him share |
| DriveLaws.CreationLaw | twins/crates/twin-drive/src/lib.rs:495-787 | creating and uploading need a folder the actor may edit, and add one item with exactly the fields asked for; otherwise the first reason is answered and nothing changes |
| DriveLaws.MoveLaw | twins/crates/twin-drive/src/lib.rs:616-649 | a move needs a folder and an item the actor may edit, and sets the parent and the revision |
| DriveLaws.UpdateLaw | twins/crates/twin-drive/src/lib.rs:697-744 | an update sets what is given, as one revision if anything is; the root can be renamed, not moved |
| DriveLaws.DeletionLaw | twins/crates/twin-drive/src/lib.rs:662-696 | a deletion needs an item other than the root that the actor may edit, and takes it and everything below it, whoever may edit that |
| DriveLaws.SharingLaw | twins/crates/twin-drive/src/lib.rs:586-615 | sharing needs an item the actor owns, and overwrites the target's first entry or adds one |
| DriveLaws.ListingLaw | twins/crates/twin-drive/src/lib.rs:567-585 | any entry lets an actor list a folder's children, each once and in id order |
| DriveLaws.ReadingLaw | twins/crates/twin-drive/src/lib.rs:650-808 | any entry lets an actor get an item and download its bytes, where it has some |
| DriveModel.KidsMeaning | twins/crates/twin-drive/src/lib.rs:677-682 | the child list of an id holds exactly the items with that parent, once each |
| DriveTwin.DriveTwinService.BuildChildIndex | twins/crates/twin-drive/src/lib.rs:374-380 | the index built in one pass gives every id its list of children |
| DriveTwin.DriveTwinService.CollectSubtree | twins/crates/twin-drive/src/lib.rs:683-690 | off a cycle the worklist loop without a visited set ends, with exactly the subtree, each item once |
| DriveDelete.ExpandOne | twins/crates/twin-drive/src/lib.rs:685-690 | one turn of the worklist keeps it duplicate-free and closed under children of the part already visited |
| DriveDelete.DrainedIsSubtree | twins/crates/twin-drive/src/lib.rs:683-694 | a worklist that has drained holds exactly the target and its transitive descendants |
| DriveDelete.DrainsIffOffCycle | twins/crates/twin-drive/src/lib.rs:683-690 | the worklist drains if and only if the target is not on a cycle of parents |
| ParentGraph.EndsIffNoCycleAbove | twins/crates/twin-drive/src/lib.rs:677-690 | a chain of parents ends exactly when no item on a cycle is above its start |
| ParentGraph.RelinkAcyclic | twins/crates/twin-drive/src/lib.rs:616-649 | giving x the parent p keeps acyclic links acyclic exactly when p is not below x |
| DriveInvariants.InsertFresh | twins/crates/twin-drive/src/lib.rs:205-209 | an insertion keeps future ids unused exactly when it does not consume the last 64-bit id |
| DriveInvariants.RemoveKeeps | twins/crates/twin-drive/src/lib.rs:691-694 | removing a subtree other than the root's keeps parents, sizes and fresh ids, and orphans nothing |
| DriveInvariants.StepKeepsInv | twins/crates/twin-drive/src/lib.rs:490-810 | every request keeps: parents exist and are folders, the root has none, an item has size n exactly when n bytes are stored; ids stay fresh exactly unless the counter's last value is consumed |
| DriveInvariants.StepAcyclic | twins/crates/twin-drive/src/lib.rs:616-744 | from acyclic parents, the state after a request is acyclic exactly unless it moved an item into its own subtree |
| DriveRuns.StepIds | twins/crates/twin-drive/src/lib.rs:490-810 | a request adds at most the allocated id, and an item disappears exactly when it or an ancestor is deleted |
| DriveRuns.StepContent | twins/crates/twin-drive/src/lib.rs:490-810 | no request changes the stored bytes of an item that it leaves in place |
| DriveRuns.RunKeepsInv | twins/crates/twin-drive/src/lib.rs:490-810 | the invariants hold after every run that cannot exhaust the counter |
| DriveRuns.RunHasNoOrphans | twins/crates/twin-drive/src/lib.rs:236-241 | no run produces an item whose parent is missing |
| DriveRuns.CreatedIdIsNew | twins/crates/twin-drive/src/lib.rs:205-209 | a creation never overwrites an item |
| DriveRuns.DeletedIdsStayAway | twins/crates/twin-drive/src/lib.rs:662-696 | the id of a deleted item is never used again |
| DriveRuns.SparedContent | twins/crates/twin-drive/src/lib.rs:745-810 | stored bytes survive every run that deletes neither the item nor an ancestor it has at that time |
| DriveRuns.UploadThenDownload | twins/crates/twin-drive/src/lib.rs:745-810 | after such a run a download returns exactly the uploaded bytes, to every actor with access |
| DriveRuns.CycleIsReachable | twins/crates/twin-drive/src/lib.rs:616-696 | a run of accepted requests from the initial state leads to a deletion that does not return |
| DriveTree.NodesOfTree | twins/crates/twin-drive/src/lib.rs:387-418 | the tree built at a node lists exactly the subtree of that node, each item once, with its slash-joined path |
| DriveTree.TreeMirrors | twins/crates/twin-drive/src/lib.rs:387-418 | every node shows its item's fields, and its children are the item's children in id order |
| DriveTree.TreeExact | twins/crates/twin-drive/src/lib.rs:373-418 | the tree built from the root holds every item whose chain of parents ends at the root, and no other, cycles or not |
| DriveTwin.DriveTwinService.StateTree | twins/crates/twin-drive/src/lib.rs:373-385 | builds that tree in every state with a parentless root; none without a root |
| DriveTwin.DriveTwinService.SeedRoot | twins/crates/twin-drive/src/lib.rs:243-259 | renames the root and replaces the owner's permission by an owner entry at the end, or fails without a root |
| DriveTwin.DriveTwinService.BumpNextId | twins/crates/twin-drive/src/lib.rs:311-319 | the counter is raised past the number in an id, if it has one |
| DriveTwin.DriveTwinService.SeedItem | twins/crates/twin-drive/src/lib.rs:261-309 | adds the item under an existing folder; a duplicate id, missing parent or non-folder parent changes nothing |
| DriveTwin.DriveTwinService.SeedFileItem | twins/crates/twin-drive/src/lib.rs:1442-1487 | adds item, mime type, properties and decoded bytes; an entry still waiting changes nothing, and one that does not decode leaves its item without bytes |
| DriveSeeding.GroundedIsPlaced | twins/crates/twin-drive/src/lib.rs:1434-1502 | when a pass places nothing, every entry grounded through folders has been placed already |
| DriveSeeding.StalledIsBad | twins/crates/twin-drive/src/lib.rs:1492-1502 | a stalled loop means that the seed list is not acceptable |
| DriveTwin.DriveTwinService.SeedPending | twins/crates/twin-drive/src/lib.rs:1434-1502 | the loop with its stalled rounds ends, in the state of passes until nothing waits or a pass fails or adds nothing, whether or not it succeeds |
| DriveSeeding.SeedMeaning | twins/crates/twin-drive/src/lib.rs:1422-1505 | those passes succeed exactly on lists whose ids are distinct and new, whose parent chains are grounded through folders and whose content decodes, and lead to the seeded state; the counter is the least above all numbers unless one is 2^64 - 1 |
| DriveSeedLaws.AcceptedEntries | twins/crates/twin-drive/src/lib.rs:1446-1500 | after an accepted list every entry's item has the entry's fields, one owner, its mime type or the folder type, its properties, and the size and bytes of its decoded content |
| DriveSeedLaws.LeftItems | twins/crates/twin-drive/src/lib.rs:1422-1505 | accepted or refused, a list leaves other items alone and adds only items of its entries, whole or without bytes where they do not decode |
| DriveSeedLaws.SeededRootLaw | twins/crates/twin-drive/src/lib.rs:243-259 | the first root entry sets the root's name and owner, gives the owner one entry at the end, and leaves every other actor's role |
| DriveSeeding.NumberMeaning | twins/crates/twin-drive/src/lib.rs:311-319 | an id has a number exactly if it is "item_" and a 64-bit number written out |
| DriveTwin.DriveTwinService.SeedFromScenario | twins/crates/twin-drive/src/lib.rs:1422-1505 | succeeds if and only if there is a root for a root entry and the list is acceptable; accepted or refused, it leaves exactly the state of the passes, and that keeps structure, contents and, without the number 2^64 - 1, fresh ids |
| DriveSeeding.SeededUnique | twins/crates/twin-drive/src/lib.rs:1422-1505 | the seeded items and contents are determined by the multiset of entries |
| DriveSeedOrder.SeedingOrderFree | twins/crates/twin-drive/src/lib.rs:1422-1505 | reordered lists are accepted alike and lead to the same items and contents, whatever their ids |
| DriveSeedOrder.SeedAllFollows | twins/crates/twin-drive/src/lib.rs:1438-1502 | entries are added in an order with parents first, and the counter is the one along it |
| DriveSeedOrder.SeedInOrder | twins/crates/twin-drive/src/lib.rs:1438-1502 | an acceptable list that has parents first is added in its own order |
| DriveSeedCounter.OrdersAgree | twins/crates/twin-drive/src/lib.rs:311-319 | all orders with parents first lead to the same counter if and only if below every lowest entry with the number 2^64 - 1 there is a number as great as any that can be added after it |
| DriveSeedCounter.OrderMattersIffUndecided | twins/crates/twin-drive/src/lib.rs:1422-1505 | some reordering of an accepted list leads to another state if and only if that condition fails |
| DriveSeedCounter.LastNumberOrderMatters | twins/crates/twin-drive/src/lib.rs:311-319 | two accepted lists with the same two entries, one numbered 2^64 - 1, end with the counters 6 and 0 |
| DriveSeeding.SeedOneKeeps | twins/crates/twin-drive/src/lib.rs:261-319 | one more item under an existing folder keeps structure and contents, adds no cycle, and keeps ids fresh unless its number is 2^64 - 1 |
| DriveSeeding.SeedingKeepsInv | twins/crates/twin-drive/src/lib.rs:1422-1505 | any seeding, accepted or refused, keeps parents folders, sizes equal to contents and links acyclic; ids stay fresh if no entry has the number 2^64 - 1, and do not if the allocator's id with that number went in |
| DriveHistories.ReachableStates | twins/crates/twin-drive/src/lib.rs:236-1505 | after any seedings, accepted or refused, and requests from the initial state, none of which wraps the counter: all invariants hold, there is no orphan, and the tree is exact |
| DriveHistories.EventAcyclic | twins/crates/twin-drive/src/lib.rs:490-1505 | from acyclic parents, exactly a request that moves an item into its own subtree ends with a cycle; seeding never does |
| FolderPaths.PathOfFolder | sdk/agent_sandbox_twins/src/agent_sandbox_twins/_assertions.py:15-23 | the upward walk, where it ends, yields the kept names of the chain, joined from the top |
| FolderPaths.FolderPathById | sdk/agent_sandbox_twins/src/agent_sandbox_twins/_assertions.py:9-24 | the dictionary has exactly the folders as keys, each with the path of its walk |
| FolderPaths.WalkEnds | sdk/agent_sandbox_twins/src/agent_sandbox_twins/_assertions.py:17-22 | the walk ends exactly when the chain of parents ends or passes a folder with the empty id |
| FolderPaths.SnapshotOfState | sdk/agent_sandbox_twins/src/agent_sandbox_twins/_reshape.py:49-77 | the folder list of a snapshot, keyed by id, is the folders of the state |
| FolderPaths.KeptMeaning | sdk/agent_sandbox_twins/src/agent_sandbox_twins/_assertions.py:19-21 | a name is skipped exactly if it is empty or "root" |
| FolderPaths.PathsAgree | sdk/agent_sandbox_twins/src/agent_sandbox_twins/_assertions.py:15-23 | the bottom-up path equals the path in the tree exactly when every name and id on the chain is kept by the walk, or the folder is a nameless root |
| FolderPaths.FolderNamedRoot | sdk/agent_sandbox_twins/src/agent_sandbox_twins/_assertions.py:19-21 | after one accepted request, for a folder named "root", the two paths of that folder differ |
| ResumableUpload.ContentRangeRoundTrip | twins/crates/twin-drive/src/lib.rs:2224-2250 | printing a Content-Range (section 14.4 of RFC 9110) and parsing it is the identity exactly on ranges in order and in 64 bits |
| ResumableUpload.ContentRangeMeaning | twins/crates/twin-drive/src/lib.rs:2224-2250 | any header is read exactly if it writes two bounds in order and a total or a star, in 64 bits, and then as written |
| ResumableUpload.UploadSessions.Open | twins/crates/twin-drive/src/lib.rs:2120-2127 | a new session starts with no bytes |
| ResumableUpload.UploadSessions.PutChunk | twins/crates/twin-drive/src/lib.rs:2252-2338 | reply and sessions are those of the chunk step, for every branch |
| ResumableUpload.Refused | twins/crates/twin-drive/src/lib.rs:2258-2275 | a put without a proper header, or whose header names another number of bytes than its body has, is refused and changes nothing |
| ResumableUpload.WrongOffset | twins/crates/twin-drive/src/lib.rs:2277-2294 | a put that counts but starts elsewhere changes nothing and is told how far the session is; without a session it is told that |
| ResumableUpload.Appended | twins/crates/twin-drive/src/lib.rs:2296-2330 | a put that counts and continues the session is appended; the session stays open below and above the total, and closes with one upload at it or without one |
| ResumableUpload.OnePut | twins/crates/twin-drive/src/lib.rs:2252-2338 | every true slice that starts where the prefix ends extends it, or completes it with one upload of exactly the content; nothing else does |
| ResumableUpload.ResumableDelivers | twins/crates/twin-drive/src/lib.rs:2252-2338 | for any list of true slices, reordered, overlapping or repeated, with refused puts and puts to other sessions between: one upload, of exactly the content, if and only if the slices reach its length |
| ResumableUpload.SlicesDeliver | twins/crates/twin-drive/src/lib.rs:2252-2338 | sent in order in slices that cover it, with printed headers, the content is uploaded exactly once and the session closes |
| Multipart.FindBytes | twins/crates/twin-drive/src/lib.rs:2527-2536 | the first occurrence at or after the start, or none if there is none |
| Multipart.SplitsData | twins/crates/twin-drive/src/lib.rs:2538-2567 | framed with CRLF or with line feeds, a part with a one-line header splits back into header and body, exactly unless a line-feed body has a CRLF blank line or ends in a carriage return |
| Multipart.ParseMultipartRelated | twins/crates/twin-drive/src/lib.rs:2465-2525 | the cursor loop ends, never slices out of range, and computes the recursive reading of the parts, on arbitrary bytes |
| Multipart.FindsEnd | twins/crates/twin-drive/src/lib.rs:2495-2502 | a search in framed data stops at the delimiter that ends it, never across a line break before |
| Multipart.RoundTripFrom | twins/crates/twin-drive/src/lib.rs:2478-2525 | from behind any delimiter the remaining parts are read in order |
| Multipart.CutPart | twins/crates/twin-drive/src/lib.rs:2497-2504 | a part with the delimiter inside is cut short there, and is never read as it was, with either line break |
| Multipart.MultipartRoundTrip | twins/crates/twin-drive/src/lib.rs:2465-2567 | for parts with one-line headers (section 5.1.1 of RFC 2046, RFC 2387), framed with CRLF or with line feeds, parsing returns exactly the parts, between any preamble and epilogue, if and only if there is a part, none contains the delimiter and none is ambiguous |
| V3Query.SplitV3Clauses | twins/crates/twin-drive/src/lib.rs:941-980 | the scanner with a brace depth computes the recursive splitting at " and " outside braces |
| V3Query.ParseV3Query | twins/crates/twin-drive/src/lib.rs:890-939 | the loop over the clauses folds them into a filter, and fails where a closing brace precedes the opening one |
| V3Query.SplitMeaning | twins/crates/twin-drive/src/lib.rs:941-980 | any query is cut at each first " and " outside braces, nested or not, and nowhere else; its clauses are the trimmed texts between |
| V3QueryLaws.TrimMeaning | twins/crates/twin-drive/src/lib.rs:993-1001 | trimming takes the white space off both ends and nothing else |
| V3QueryLaws.SpaceMeaning | twins/crates/twin-drive/src/lib.rs:993-1001 | white space is the twenty-five characters of Unicode's White_Space |
| V3QueryLaws.EquationMeaning | twins/crates/twin-drive/src/lib.rs:982-1001 | a key, an equals sign and a quoted value give that value, with any space between and around |
| V3QueryLaws.PairsMeaning | twins/crates/twin-drive/src/lib.rs:919-928 | in a brace block the last key and the last value count |
| V3QueryLaws.PropertyMeaning | twins/crates/twin-drive/src/lib.rs:914-934 | a property clause asks for that pair if both are there, whatever else is in its braces |
| V3QueryLaws.OtherClauses | twins/crates/twin-drive/src/lib.rs:895-937 | clauses that start and end like none of the documented ones add nothing |
| V3QueryRoundTrip.SplitPrinted | twins/crates/twin-drive/src/lib.rs:941-980 | splitting a printed query gives back its printed clauses |
| V3QueryRoundTrip.QueryRoundTrip | twins/crates/twin-drive/src/lib.rs:890-1001 | parsing a printed list of clauses yields exactly the filter they mean, quotes included |
| V3QueryMatching.MatchMeaning | twins/crates/twin-drive/src/lib.rs:1003-1030 | an item matches exactly if it has the parent, name, mime type and properties asked for, where a missing type is that of folders or of plain bytes |
| V3QueryMatching.MatchIsConjunction | twins/crates/twin-drive/src/lib.rs:1003-1030 | matching that filter equals, on every item, the conjunction of the clauses, exactly under the stated condition on rival clauses |
| V3QueryMatching.LastNameWins | twins/crates/twin-drive/src/lib.rs:890-939 | a query with two names is parsed, and an item matches that has only one of them |
| Decimal.ParsePrint | twins/crates/twin-drive/src/lib.rs:311-319 | a number below the limit is read back from its decimal digits, and a larger one is refused |
| Decimal.ParseMeaning | twins/crates/twin-drive/src/lib.rs:311-319 | exactly the texts that write a number below the limit are read: perhaps a plus sign, any zeros, its digits |
| SortedKeys.LeqMeaning | twins/crates/twin-drive/src/lib.rs:374-380 | keys are ordered by the first character that differs, and a prefix before what continues it |
| EventSequence.AssertEventSequence | src/agent_sandbox/assertion_handlers.py:53-80 | the single-cursor scan succeeds if and only if the input is well-formed and some increasing embedding takes each expected event to a matching recorded one |
| EventSequence.MatchMeaning | src/agent_sandbox/assertion_handlers.py:41-50 | an event meets an expected one exactly if it has the same kind and every attribute asked for, where what is missing is null |
| EventSequence.TakeEvent | src/agent_sandbox/assertion_handlers.py:71-76 | when the next recorded event matches, taking it loses no embedding |
| EventSequence.SkipEvent | src/agent_sandbox/assertion_handlers.py:71-76 | when it does not match, skipping it loses no embedding |
| Calendar.ExactDays | twins/crates/twin-gmail/src/lib.rs:629-651 | for every date the era arithmetic equals day counting by leap years |
| Calendar.FastIsNaive | twins/crates/twin-gmail/src/lib.rs:629-651 | the 64-bit result is the counted one modulo 2^64, and equal to it exactly when that fits a word |
| Calendar.NoOverflow | twins/crates/twin-gmail/src/lib.rs:629-651 | no intermediate value underflows or overflows up to the year 584,000,000 |
| Calendar.DatesMonotone | twins/crates/twin-gmail/src/lib.rs:629-651 | a valid date is before another exactly when its milliseconds are fewer |
| Calendar.PrintedDateIsRead | twins/crates/twin-gmail/src/lib.rs:629-651 | printed with either separator, an accepted date is read as its milliseconds (modulo 2^64), and no other date is |
| Calendar.DateMeaning | twins/crates/twin-gmail/src/lib.rs:629-651 | a text is a date exactly if it writes a year from 1970 on, a month up to 12 and a day up to 31 between slashes or dashes, leading zeros included; then it is the counted milliseconds, in 64 bits |
| GmailTwin.GmailTwinService.constructor | twins/crates/twin-gmail/src/lib.rs:306-346 | the initial state: the system labels and nothing else |
| GmailTwin.GmailTwinService.FindSubject | twins/crates/twin-gmail/src/lib.rs:452-470 | the loop finds the first message with the same non-empty normalised subject |
| GmailTwin.GmailTwinService.FindOrCreateThread | twins/crates/twin-gmail/src/lib.rs:439-483 | the thread found or created and the whole new state are those of the specification |
| GmailInvariants.FindThreadMeaning | twins/crates/twin-gmail/src/lib.rs:439-470 | the named live thread, else the thread of a message with the same subject, else none, and then no message has that subject |
| GmailTwin.GmailTwinService.UpdateThreadSnippet | twins/crates/twin-gmail/src/lib.rs:486-500 | the loop renews a thread's summary from its latest message |
| GmailSnippets.LatestMeaning | twins/crates/twin-gmail/src/lib.rs:486-500 | that message has the greatest date, and the last id among equals; there is one exactly when the thread has a message |
| GmailTwin.GmailTwinService.StoreFiles | twins/crates/twin-gmail/src/lib.rs:850-870 | attachments are stored one by one up to the first that does not decode |
| GmailTwin.GmailTwinService.SendMessage | twins/crates/twin-gmail/src/lib.rs:769-821 | outcome and whole new state are those of the step |
| GmailTwin.GmailTwinService.InsertMessage | twins/crates/twin-gmail/src/lib.rs:823-898 | the same for inserted messages, including what a failure to decode leaves behind |
| GmailTwin.GmailTwinService.ChangeLabels | twins/crates/twin-gmail/src/lib.rs:900-955 | the removal and insertion loops compute the specified list of labels |
| GmailTwin.GmailTwinService.ChangeMessage | twins/crates/twin-gmail/src/lib.rs:900-955 | modify, trash and untrash of one message: outcome and whole new state |
| GmailTwin.GmailTwinService.DeleteMessage | twins/crates/twin-gmail/src/lib.rs:957-983 | removes the message, its attachments and an emptied thread; renews the summary of one that is left |
| GmailTwin.GmailTwinService.ChangeThread | twins/crates/twin-gmail/src/lib.rs:1066-1175 | modify, trash and untrash of a thread: outcome and whole new state |
| GmailTwin.GmailTwinService.DeleteThread | twins/crates/twin-gmail/src/lib.rs:1177-1202 | removes the thread, exactly its messages and exactly their attachments |
| GmailTwin.GmailTwinService.CreateLabel | twins/crates/twin-gmail/src/lib.rs:1222-1252 | refuses a name in use, else adds a user label under an allocated id |
| GmailTwin.GmailTwinService.UpdateLabel | twins/crates/twin-gmail/src/lib.rs:1254-1287 | changes the given fields of a user label and refuses system labels |
| GmailTwin.GmailTwinService.DeleteLabel | twins/crates/twin-gmail/src/lib.rs:1289-1307 | removes a user label and takes it off every message |
| GmailTwin.GmailTwinService.Handle | twins/crates/twin-gmail/src/lib.rs:769-1307 | each of the thirteen requests that change the state does to the service what the step does to its state, and references stay intact |
| GmailTwin.GmailTwinService.LabelMessageCount | twins/crates/twin-gmail/src/lib.rs:503-515 | the sizes of the sets of messages, and of unread messages, with a label |
| GmailTwin.GmailTwinService.LabelThreadCount | twins/crates/twin-gmail/src/lib.rs:518-530 | the sizes of the sets of threads of those messages |
| GmailTwin.GmailTwinService.BumpNextId | twins/crates/twin-gmail/src/lib.rs:384-408 | the counter is raised past the greatest number in any id |
| GmailTwin.GmailTwinService.SeedFromScenario | twins/crates/twin-gmail/src/lib.rs:2530-2568 | seeds labels, inserts messages up to the first failure, and raises the counter only if there was none |
| GmailInvariants.ArrivalShape | twins/crates/twin-gmail/src/lib.rs:769-898 | what an arriving message changes: its entry, its thread's summary, the store and the counters, and nothing else |
| GmailLaws.ArrivalLaw | twins/crates/twin-gmail/src/lib.rs:769-898 | a sent or inserted message is stored and answered with every field its request gives: sender, recipients, subject, bodies, labels and date with their defaults, snippet, references and size |
| GmailLaws.SnippetMeaning | twins/crates/twin-gmail/src/lib.rs:410-417 | the snippet is the first hundred characters, with an ellipsis exactly if the body has more than a hundred UTF-8 bytes |
| GmailLaws.SizeMeaning | twins/crates/twin-gmail/src/lib.rs:419-436 | the size estimate is the UTF-8 length of sender, recipients, subject and bodies, and the sizes of the attachments |
| GmailLaws.ArrivedBytesLaw | twins/crates/twin-gmail/src/lib.rs:850-870 | files are stored under the ids of their references up to the first that does not decode; then the message is refused and no message changes |
| GmailStateLaws.ArrivalThreadLaw | twins/crates/twin-gmail/src/lib.rs:439-500 | an arrival adds at most its thread, under the next number and history id, and gives its record the snippet and history id of its latest message |
| GmailStateLaws.MessageChangeLaw | twins/crates/twin-gmail/src/lib.rs:900-955 | modify, trash and untrash change a message's labels, in order, and its history id, and answer with it |
| GmailStateLaws.ThreadChangeLaw | twins/crates/twin-gmail/src/lib.rs:1066-1175 | the same for a thread: one history id for it and its messages, which are answered in id order; nothing else changes |
| GmailStateLaws.DeletionLaw | twins/crates/twin-gmail/src/lib.rs:957-983 | deleting a message takes its attachments, and its thread if it was the last, whose record is renewed otherwise |
| GmailStateLaws.ThreadDeletionLaw | twins/crates/twin-gmail/src/lib.rs:1177-1202 | deleting a thread takes exactly its messages and their attachments |
| GmailStateLaws.CreateLabelLaw | twins/crates/twin-gmail/src/lib.rs:1222-1252 | a name in use is refused; else a user label is added, shown unless asked otherwise |
| GmailStateLaws.UpdateLabelLaw | twins/crates/twin-gmail/src/lib.rs:1254-1287 | a user label gets what is given; system labels are refused |
| GmailStateLaws.DeleteLabelLaw | twins/crates/twin-gmail/src/lib.rs:1289-1307 | a user label goes from the labels and, in place, from every message |
| GmailStateLaws.SystemLabels | twins/crates/twin-gmail/src/lib.rs:306-346 | the thirteen system labels are there from the start, and only they |
| GmailStateLaws.SeedLabelsLaw | twins/crates/twin-gmail/src/lib.rs:2530-2553 | seeding keeps labels that are there and adds each other id as its first seed says |
| GmailStateLaws.AttachmentLaw | twins/crates/twin-gmail/src/lib.rs:1310-1337 | an attachment is served exactly if the message refers to it and bytes are stored, with the size of the first reference |
| GmailStateLaws.CountedMeaning | twins/crates/twin-gmail/src/lib.rs:503-530 | what is counted for a label are the messages that carry it, those that carry UNREAD too, and their threads |
| GmailInvariants.KeptBody | twins/crates/twin-gmail/src/lib.rs:900-1307 | every other request leaves a remaining message alone but for labels and history id |
| GmailInvariants.StepWF | twins/crates/twin-gmail/src/lib.rs:699-1307 | after every request entries sit under their own ids and every message's thread exists |
| GmailIds.StepThreadsFresh | twins/crates/twin-gmail/src/lib.rs:359-363 | no thread id still to be allocated is ever in use |
| GmailInvariants.ArrivalSucceeds | twins/crates/twin-gmail/src/lib.rs:769-898 | an arriving message is refused exactly if one of its files does not decode; sending never is |
| GmailIds.StepMessagesFresh | twins/crates/twin-gmail/src/lib.rs:353-357 | the same for message ids, if and only if no inserted message, whose files decode, has an id numbered at or above the counter that its thread and files will leave |
| GmailIds.StepAttachmentsFresh | twins/crates/twin-gmail/src/lib.rs:371-375 | the same for attachment ids, if and only if no file before the first that does not decode has such an id |
| GmailIds.StepFresh | twins/crates/twin-gmail/src/lib.rs:353-381 | all four kinds of ids stay fresh together if and only if both conditions hold |
| GmailIds.TouchedHistory | twins/crates/twin-gmail/src/lib.rs:377-381 | every message that a request touches gets a history id of that request |
| GmailIds.StepHistoryBelow | twins/crates/twin-gmail/src/lib.rs:377-381 | all history ids in use stay below the next one, so touched messages get one above every earlier one |
| GmailRuns.RunBase | twins/crates/twin-gmail/src/lib.rs:699-1307 | references, thread ids and history ids are sound after every run |
| GmailRuns.DeletedThreadStaysAway | twins/crates/twin-gmail/src/lib.rs:1177-1202 | the id of a thread that is gone is never used for another |
| GmailReissue.RunLabelsFresh | twins/crates/twin-gmail/src/lib.rs:365-369 | no run uses a label id that is still to be allocated |
| GmailReissue.GoneIdStaysAway | twins/crates/twin-gmail/src/lib.rs:353-375 | the id of a message, attachment or label that is gone is not used again, unless a message brings it along, which no request does with labels |
| GmailReissue.FilesGetDifferentIds | twins/crates/twin-gmail/src/lib.rs:850-870 | one message's files are given different ids |
| GmailReissue.NeverHandedOutTwice | twins/crates/twin-gmail/src/lib.rs:353-375 | over a run, no two requests have the same message, thread, attachment or label id allocated |
| GmailThreading.JoinsSameSubject | twins/crates/twin-gmail/src/lib.rs:439-483 | without a live explicit thread, a message joins exactly the live messages with its normalised subject |
| GmailThreading.StepThreaded | twins/crates/twin-gmail/src/lib.rs:769-1202 | every request keeps: two messages share a thread exactly when their normalised subjects are equal and non-empty |
| GmailThreading.RunThreaded | twins/crates/twin-gmail/src/lib.rs:769-1202 | that holds in every run in which no explicit thread id names a live thread |
| GmailThreading.StepInhabited | twins/crates/twin-gmail/src/lib.rs:769-1202 | a request leaves every thread with a message, exactly unless it is an arrival that fails after a thread was created for it, or one that takes the id of the only message of another thread |
| GmailThreading.RunYieldsClasses | twins/crates/twin-gmail/src/lib.rs:769-1202 | from the initial state, threads are exactly the classes of that relation |
| GmailThreading.ReplyKeepsSubject | twins/crates/twin-gmail/src/lib.rs:452-457 | a reply with "Re: " always has the normalised subject of what it answers; with "RE: " and "re: " exactly if that starts with none of the prefixes stripped before |
| GmailThreading.ForwardKeepsSubject | twins/crates/twin-gmail/src/lib.rs:452-457 | a forward with "Fwd: " has it exactly if what it forwards is no reply, and with "FWD: " exactly if that is no "Fwd: " forward either |
| GmailSnippets.StepSnippets | twins/crates/twin-gmail/src/lib.rs:769-1307 | a request keeps every summary equal to its latest message's snippet, exactly unless it is an arrival whose files decode and whose id is that of the latest message of another thread, where the next latest has another snippet |
| GmailCounterexamples.StaleSummaryIsReachable | twins/crates/twin-gmail/src/lib.rs:823-898 | three accepted insertions leave a stale summary |
| GmailCounterexamples.OverwriteIsReachable | twins/crates/twin-gmail/src/lib.rs:769-898 | after an accepted insertion under an anticipated id, a send is given the id of that live message |
| GmailCounterexamples.EmptyThreadIsReachable | twins/crates/twin-gmail/src/lib.rs:823-898 | one refused insertion leaves a thread without messages |
| GmailSnippets.RunSnippets | twins/crates/twin-gmail/src/lib.rs:769-1307 | the summaries agree after every run without overwriting |
| GmailAttachments.StepConserved | twins/crates/twin-gmail/src/lib.rs:769-1202 | a request keeps the store equal to the disjoint union of what live messages reference, with the announced sizes |
| GmailAttachments.RunConserved | twins/crates/twin-gmail/src/lib.rs:769-1202 | so does every run without reused ids and undecodable files |
| GmailAttachments.ReferencedIsServed | twins/crates/twin-gmail/src/lib.rs:1310-1337 | every referenced attachment is served, with its size |
| GmailAttachments.ArrivedIsServed | twins/crates/twin-gmail/src/lib.rs:1310-1337 | the bytes served are those that arrived, as long as the message stays |
| GmailPaging.SortMeaning | twins/crates/twin-gmail/src/lib.rs:727-728 | the stable sort keeps the elements and puts the newest first, in id order among equals |
| GmailPaging.PageLaw | twins/crates/twin-gmail/src/lib.rs:730-748 | a page holds what is left, up to the number asked for between one and five hundred, and names the position behind it while there is more |
| GmailPaging.BadTokens | twins/crates/twin-gmail/src/lib.rs:731-735 | a token that writes no position stands for the first page |
| GmailPaging.CollectIsRest | twins/crates/twin-gmail/src/lib.rs:730-748 | following the page tokens ends and concatenates to the rest of the list |
| GmailPaging.MessagesPagedLosslessly | twins/crates/twin-gmail/src/lib.rs:702-754 | each answer is the page of one list, paging yields that list, and it holds every message with all labels asked for that the query accepts, once, newest first |
| GmailPaging.ThreadsPagedLosslessly | twins/crates/twin-gmail/src/lib.rs:986-1041 | the same for threads with such a message; no listed thread is missing, so offsets do not slip |
| GmailLabels.RemoveIsFilter | twins/crates/twin-gmail/src/lib.rs:909-911 | removing labels one by one filters them out in order |
| GmailLabels.AddAppends | twins/crates/twin-gmail/src/lib.rs:912-916 | adding labels appends exactly the missing ones, once each |
| GmailLabels.RelabelledMembers | twins/crates/twin-gmail/src/lib.rs:900-955 | which labels a message has after modify, trash and untrash |
| GmailLabels.RelabelledDistinct | twins/crates/twin-gmail/src/lib.rs:900-955 | no change puts a label on a message twice |
| GmailLabels.TrashUntrash | twins/crates/twin-gmail/src/lib.rs:923-955 | trash then untrash gives back the labels exactly to a message in the inbox and not in the trash |
| GmailLabels.ThreadChangeIsMessageChange | twins/crates/twin-gmail/src/lib.rs:1066-1175 | a thread operation leaves each member as the message operation would, and other messages alone; the six handlers' label edits are one function in the model, `GmailModel.Relabelled` |
| GmailLabels.CountsAddUp | twins/crates/twin-gmail/src/lib.rs:503-530 | the member counts of all threads sum to the number of messages |
| GmailLabels.LabelCounts | twins/crates/twin-gmail/src/lib.rs:503-530 | per label, threads are at most messages and unread at most all |
| GmailProper.StoreAllNew | twins/crates/twin-gmail/src/lib.rs:850-870 | files that decode and bring new, distinct ids all get new, distinct ids |
| GmailProper.SendIsProper | twins/crates/twin-gmail/src/lib.rs:769-821 | a message sent without a thread id meets the caller conditions below in every state whose counters cannot wrap |
| GmailProper.ProperRunIsStrict | twins/crates/twin-gmail/src/lib.rs:769-898 | conditions that a caller can check before each request give all the conditions of the run theorems, and keep all four kinds of allocated ids new |
| GmailSeeding.BumpMakesFresh | twins/crates/twin-gmail/src/lib.rs:384-408 | unless the greatest number in an id is 2^64 - 1, raising the counter makes all four kinds of allocated ids new |
| GmailSeeding.ExtractMeaning | twins/crates/twin-gmail/src/lib.rs:385-390 | the number of an id is what follows its last underscore, if that writes one |
| GmailSeeding.SeededState | twins/crates/twin-gmail/src/lib.rs:2530-2568 | seeding that cannot exhaust the counters keeps the invariants of runs, and leaves no id in use that is still to be allocated unless one has the number 2^64 - 1 |
| GmailSeededRuns.SeedingIsARun | twins/crates/twin-gmail/src/lib.rs:2554-2564 | seeding messages is the run of their insertions |
| GmailSeedIds.ApartSeeds | twins/crates/twin-gmail/src/lib.rs:2530-2568 | seeded messages go in completely and undisturbed if their ids, and those of their files, are distinct and, where some have none, do not look like allocated ones |
| GmailSeededRuns.SeededRunSound | twins/crates/twin-gmail/src/lib.rs:699-2568 | after seeding in which no id is used twice, and any proper run: summaries agree, attachments are conserved and allocated ids of all kinds are new; if no message named a live thread, threads are the subject classes |

## Left out

- HTTP routing, extractors, locks, JSON and status codes: a handler is a method that returns Ok or Err.
- base64 and its crate: decoding is the parameter `Decoder`, or the optional value `Incoming.data`.
- Snapshot and restore: restoring arbitrary JSON can install any state, so runs start from the initial state.
- Role names parsed from text, Drive's v3 file records, state views other than the tree: plain translations of fields.
- Drive item revisions: an unbounded number where the source has a 64-bit word.
- parse_gmail_query and its case-insensitive matching: the query is any predicate on messages, so paging is proved for all of them.
- GmailTwin.GmailTwinService.Handle: does not dispatch the requests that only read. GetMessage, GetThread, ListLabels, GetLabel and GetProfile are not modelled; the two list requests and GetAttachment are functions in `GmailPaging` and `GmailAttachments`.
- Label colours: always absent, so they are no field of `Label`.
- GmailTwin.GmailTwinService.InsertMessage: the decoding error keeps its fixed part, without the file name and the decoder's words, because the decoder is not modelled.
- Multipart.ParseMultipartRelated: keeps header blocks as bytes; their split into names and values and the lossy UTF-8 reading are not modelled, and neither is extracting the boundary from a content type.
- V3Query.ParseV3Query: the malformed clause on which the source slices out of order and panics is the result None.
- ResumableUpload.UploadSessions.Open: upload ids come from the caller, where the source numbers them.
- EventSequence.AssertEventSequence: numbers are integers, and JSON values are compared structurally, without Python's equality between booleans, integers and floats.
- FolderPaths.FolderPathById: requires the walks to end, since Python's loop does not end otherwise; `FolderPaths.WalkEnds` says exactly when.
- DriveTwin.DriveTwinService.DeleteItem: requires the request to return, for the same reason; `DriveDelete.DrainsIffOffCycle` says exactly when.
- GmailSeeding.BumpMakesFresh: claims nothing where the greatest number is 2^64 - 1, at which the counter wraps to 0.
- GmailSeeding.SeededState: the same, and assumes that seeding does not exhaust the counters.
- DriveSeeding.SeedingKeepsInv: for entries with the number 2^64 - 1 under another spelling than the allocator's, whether ids stay fresh is not decided; the rest is claimed always.
- Scenario schemas, the kernel, timeline actions, the command line and the Python engine: no state machine of their own.
- Debug builds: they panic where the counters wrap.
