# Verified model of the Endur permission, upload, billing and logging core

This project models, in Dafny 4.11, the parts of the Endur backend (and one of its screens) that carry the most
delicate reasoning, and proves what the code promises about them. Nothing of the original program is executed; each
module restates the behaviour of one or two source files, with their branches, constants and edge cases.
`dafny verify dfyconfig.toml` checks everything.

* **Who may do what.** `OrgGraph` is the depth-capped recursive graph queries and the loop guard. `Grants` is scopes and
  the resolver, `Visibility` the list side that must agree with it, `Collect` how grants get their anchors, `Escalation`
  the bound on handing out positions, `Coalition` whole runs of appointments, `GridGuard` the bound on raising roles,
  `HeldCapabilities` the interface hint, `GrantCache` and `RequestMemo` what is remembered between and within requests.
* **The powers grid.** `PowersGrid` is the screen's working copy, undo and diff together with the rows the server keeps,
  `RoleMatrix` the server's refusals and its guard against locking everybody out.
* **Images and uploads.** `Bytes`, `Jpeg`, `Png`, `Webp` and `Images` are the metadata stripper; `Multipart` the upload
  parser and its byte limit.
* **Published schemas.** `ZodSchema` faces what the request parser takes with what the published document says.
* **Pages, time and logs.** `Paginate`, `CivilTime`, `Period`, `LogFormat`, `RotatingLog`.
* **Money, second factors, names.** `Subscription` is prices and the life of a plan; `Totp` base32 and one-time codes;
  `UnitNames` the range syntax of unit names.
* `Prelude` and `Decimal` hold shared vocabulary.

Code that works in place is modelled in place: classes with the source's fields, and methods with its loops, each proved
against a function or predicate about which the theorems are then shown.

## Where the code and its own words part

The model follows the code. Each of these is a theorem, most of them exact conditions:

* "A list can never disagree with a permission check" holds for units. It fails for the `self` flag exactly when an
  org-wide allow meets a deny on oneself (`Visibility.SelfFlagDisagreement`), and for an id that is no unit in one case
  (`Visibility.ListDisagreement`).
* The loop guard stops at 32 links; a longer chain can be closed (`OrgGraph.DeepChainSlipsThrough`).
* Appointing somebody can give a coalition a power nobody in it had, although the escalation bound agrees. The bound looks
  at what the position confers; but the grants of a role have one anchor, which a second position of the role moves, with
  its denies; grants on a person go with the home unit; and delegations come with a position. Appointing oneself never
  adds anything, under any grant table, when no anchor moves that way, and otherwise does under some table
  (`Coalition.HarmlessExactly`, `Coalition.HarmlessMeans`). A role the grid guard let through can still be refused by the
  escalation bound, exactly where a cell at the widest scope meets a denied unit (`GridGuard.RaisedRolesCanBePlaced`), and
  the grid guard itself counts ids that are no units (`GridGuard.HonestRaise`).
* A capability in the hint may be of no use (`HeldCapabilities.HintMayOverstate`), exactly where
  `HeldCapabilities.HintedIsUsable` says.
* A position that is over grants nothing to its holder, but delegations into it and from it go on, exactly as
  `Collect.DelegationPassesOn` says.
* Rows are stored with microseconds, cursors carry milliseconds. Rows of one millisecond can be lost between pages,
  exactly as `Paginate.MissedExactlyInShadows` says, although the ordering by id is meant for them.
* The lockout guard counts a role by its last row, although a deny on the same role takes the power away
  (`RoleMatrix.BothRowsFoolTheGuard`, and exactly when in `RoleMatrix.FooledExactly`).
* Published schemas lose exclusive and overwritten bounds, null under a nullable enumeration, and optionality under a
  nullable; `ZodSchema.NumberAgreesExactly`, `StringAgreesExactly`, `NullableAgreesExactly` and `ObjectAgreesExactly`
  say exactly when.
* A period that starts later can end earlier, by less than a day (`Period.LaterEndsNoEarlier`).
* A free roll-over onto a tier is later counted as paid (`Subscription.FreeTierIsCounted`).
* An upload cut off inside its file part is taken for whole (`Multipart.CutBodyIsTakenWhole`).
* Stripping a WebP twice can lose a chunk that the first pass kept, exactly as `Webp.StrippedIdempotent` says.
* The size reader for JPEG skips over junk between segments where the stripper stops, and a too short SOF segment is
  measured through its neighbour (`Jpeg.SizeSurvives`, `Jpeg.SofLengthIsExact`), as is a too short PNG header
  (`Png.SizeSurvives`).

## Model

| member | source | states |
|---|---|---|
| OrgGraph.SubtreeIsBoundedReach | src/backend/db/graph.ts:11-29 | On any graph, loops included, the subtree query returns exactly the nodes joined to an existing unit by a walk of at most 32 live links down |
| OrgGraph.AncestorsAreBoundedReach | src/backend/db/graph.ts:32-50 | The ancestor query returns exactly the nodes joined by at most 32 live links up |
| OrgGraph.DownLinksAre | src/backend/db/graph.ts:11-29 | The links of the subtree query are the contains rows in force whose child is a node |
| OrgGraph.UpLinksAre | src/backend/db/graph.ts:32-50 | Those of the ancestor query are the contains rows in force whose parent is a node, turned round |
| OrgGraph.DimensionLinksAre | src/backend/db/graph.ts:71-92 | Those of the loop guard are the rows in force of its dimension |
| OrgGraph.ChainSubtree | src/backend/db/graph.ts:6-29 | Down any written chain from a unit, the k-th node is in its subtree exactly when k is at most 32 |
| OrgGraph.ChainAncestors | src/backend/db/graph.ts:6-50 | Up any written chain to a unit, the k-th node is among its ancestors exactly when k is at most 32 |
| OrgGraph.ChainGuard | src/backend/db/graph.ts:6-92 | The link that would close a written chain is refused exactly when the chain has at most 32 links |
| OrgGraph.ExpandIn | src/backend/db/graph.ts:15-27 | What the recursive query adds from a depth on is exactly what lies within the remaining number of links of the frontier |
| OrgGraph.SubtreeAncestorDuality | src/backend/db/graph.ts:11-50 | Between units, one lies in the subtree of another exactly when that other is among its ancestors |
| OrgGraph.SubtreeInside | src/backend/db/graph.ts:11-29 | A subtree row is its root or the lower end of a live link |
| OrgGraph.LoopNeedsReturn | src/backend/db/graph.ts:71-92 | On a loop-free graph a new link closes a loop exactly when the child already reaches the parent |
| OrgGraph.GuardExact | src/backend/db/graph.ts:71-92 | The guard never refuses a harmless link, and it is right about a link exactly when a return walk, if there is one, fits its depth of 32 |
| OrgGraph.ShallowGuardKeepsAcyclic | src/backend/db/graph.ts:71-92 | With chains of at most 32 links the guard refuses exactly the links that close a loop |
| OrgGraph.RemovalKeepsAcyclic | src/backend/db/graph.ts:71-92 | Dropping links never makes a loop |
| OrgGraph.GuardedRunStaysAcyclic | src/backend/db/graph.ts:71-92 | Over any run of guarded links and removals, with short chains before each link, the dimension stays loop-free |
| OrgGraph.DeepChainSlipsThrough | src/backend/db/graph.ts:6 | For every chain longer than 32 links the guard lets through a link that closes it into a loop |
| Grants.ScopeContext.ScopeCovers | src/backend/authz/scope.ts:14-56 | With its subtree cache, finds no objection exactly when the grant covers the target, and otherwise the one reason that fits |
| Grants.Narrowest | src/backend/authz/resolve.ts:115-121 | Picks a grant no other is narrower than, seniority breaking ties, the earlier of equals |
| Grants.NarrownessIs | src/backend/authz/resolve.ts:115-121 | Narrower is oneself before an own unit before a subtree before everything, and then the lower level, a missing one being 99 |
| Grants.ReasonIsOne | src/backend/authz/scope.ts:14-56 | At most one reason fits a grant and a target |
| Grants.ReasonsSay | src/backend/authz/scope.ts:14-56 | What each reason says of the grant and of the target |
| Grants.Gather | src/backend/authz/resolve.ts:47-73 | The survivors are the live covering grants about the capability, in order, and the trace names each grant about it once, with a reason exactly when it fell away |
| Grants.Run | src/backend/authz/resolve.ts:48-112 | Any covering deny refuses, else any covering allow grants; the reason, the deciding grant, the limits and the trace are those the rules prescribe, for every grant list |
| Grants.CombineParams | src/backend/authz/params.ts:7-29 | One mode gives each limit at the strongest value any allow gives it, the other the limits of the first most senior allow that carries some; no limits are no answer |
| Grants.UnionIsOne | src/backend/authz/params.ts:20-28 | The union depends on which grants there are, not on their order |
| Grants.MoreGrantsNeverWeaken | src/backend/authz/params.ts:20-28 | Where more grants still allow, no limit of the union is lowered |
| Grants.SeniorReplaces | src/backend/authz/params.ts:15-18 | In the other mode a later allow replaces all limits exactly when it carries some and is strictly more senior |
| Grants.SurvivorsIn | src/backend/authz/resolve.ts:75-101 | Being allowed is having a surviving allow and no surviving deny |
| Grants.AboutIn | src/backend/authz/resolve.ts:103-109 | The default refusal reads off the trace whether there was any grant, and whether all had expired |
| Grants.OutsideItsWindow | src/backend/authz/resolve.ts:58-62 | A grant that has not begun by the instant of the question, or is over by then, makes no difference to a check |
| Visibility.UnitsOf | src/backend/authz/visibility.ts:84-99 | One subtree query per distinct root yields exactly the union of the units the grants reach |
| Visibility.Compute | src/backend/authz/visibility.ts:43-81 | The answer has exactly the allowed units less the denied ones, each once, or is everywhere when nothing is denied; a deny at the widest scope leaves nothing |
| Visibility.HeldIsAllowed | src/backend/authz/visibility.ts:43-81 | For a unit, holding a capability in the sense of the list sets is being allowed it by the check |
| Visibility.ListAgreesWithCheck | src/backend/authz/visibility.ts:1-2 | For every grant list and every unit of the organisation, list and check agree |
| Visibility.ListDisagreement | src/backend/authz/visibility.ts:70-75 | For targets naming any id they agree exactly outside one case: an id that is no unit, an org-wide allow, and some other unit denied |
| Visibility.SelfFlagDisagreement | src/backend/authz/visibility.ts:68-75 | The self flag and a check on oneself agree exactly unless an org-wide allow meets a deny on oneself |
| Visibility.NothingMeansNothing | src/backend/authz/visibility.ts:27-29 | When the list side sees nothing, no unit and no check on oneself is allowed |
| Visibility.VisibleIdsAreUnits | src/backend/authz/visibility.ts:84-108 | With anchors and links inside the units, every listed id is a unit |
| Visibility.RequestContext.VisibleUnits | src/backend/authz/visibility.ts:32-40 | Through the per-request memo, every answer is still the right one for its capability |
| Collect.AnchorTableIsLastAnchor | src/backend/authz/collect.ts:63-93 | In the finished table every subject has the anchor of the last live node that names it |
| Collect.CollectGrants | src/backend/authz/collect.ts:19-156 | Tags every grant row with its anchor: nodes fill the table, the person and then delegations overwrite it; without a person, the grants of a running support session or none |
| Collect.CollectedIn | src/backend/authz/collect.ts:63-155 | A collected grant is exactly a grant row carrying the anchor through which the person reaches its subject |
| Collect.CollectedByField | src/backend/authz/collect.ts:139-155 | Field by field: a collected grant has the capability, scope, effect, window and limits of its row, and the origin, unit and level of the anchor |
| Collect.AnchorsShow | src/backend/authz/collect.ts:69-93 | Positions and roles anchor at the place and level of the position, under their own names; groups at their scope, if they have one |
| Collect.DelegatedAnchorsShow | src/backend/authz/collect.ts:117-122 | Delegated anchors are at the place and level of the delegating position, and say that they are delegated |
| Collect.PersonAnchorShows | src/backend/authz/collect.ts:95-100 | Grants on the person anchor at the home unit, without a level |
| Collect.SupportGrantsShow | src/backend/authz/support.ts:20-51 | The grants of a support session, field by field: an allow everywhere for all of the catalogue and a deny everywhere for all that is blocked |
| Collect.AnchorsEverywhereIffNoClash | src/backend/authz/collect.ts:69-122 | The grants of a subject anchor at every live node that names it exactly when those nodes agree and no delegation names it; two positions of one role share one anchor |
| Collect.AnchoredExactly | src/backend/authz/collect.ts:63-122 | A subject anchors for a person exactly when it is the person, a live node of theirs names it, or a live delegation into a position they hold, over or not, comes from a position naming it by its id or its role |
| Collect.DelegationPassesOn | src/backend/authz/collect.ts:67-122 | A person all of whose positions and groups are over reaches, besides themselves, exactly the subjects delegated to them |
| Collect.SupportMay | src/backend/authz/support.ts:20-51 | A support session may do exactly what the catalogue lists and the blocked list does not, on every target, until it ends |
| Collect.AnchorAfterAppend | src/backend/authz/collect.ts:69-82 | A node read last moves the anchors it names and no other |
| Collect.HomeUnitIsHeld | src/backend/authz/collect.ts:159-176 | A home unit belongs to a held position that is primary or the only one; two primary positions leave none |
| Escalation.PositionWouldConfer | src/backend/authz/escalation.ts:60-112 | The table holds exactly the capabilities conferred beyond oneself, each with exactly the units its live allow rows reach |
| Escalation.FindEscalation | src/backend/authz/escalation.ts:27-57 | Finds nothing exactly when everything the position confers lies within what the caller holds; a finding is a conferred power the caller lacks there |
| Escalation.DistinctPairs | src/backend/middleware/requireNoEscalation.ts:76-86 | Keeps the first of equal pairs: same pairs, none twice |
| Escalation.GuardPairs | src/backend/middleware/requireNoEscalation.ts:29-65 | Refuses exactly when some requested pair escalates, although only distinct pairs are looked at |
| Coalition.TidyKept | src/backend/features/people/service.ts:222-260 | Assigning finds the position or creates it, and keeps positions, roles, groups, people and units apart and one position for each role and unit |
| Coalition.AssignGives | src/backend/features/people/service.ts:222-260 | A seat not held yet is added to those held, a new primary one takes the mark from all others, and nobody else is touched; one held already changes nothing |
| Coalition.SeatIsFoundOrNew | src/backend/features/people/service.ts:224-240 | The seat is the position of the role at the unit if there is one, and otherwise a new one |
| Coalition.ConferredIsHeld | src/backend/authz/escalation.ts:27-112 | A conferred allow that reaches a unit from the place of the request is one the guarded actor is allowed there |
| Coalition.AppointedMay | src/backend/authz/escalation.ts:27-112 | What a person may do after a guarded appointment that moves no anchor in use, they could before or their appointer could, however grants reach them |
| Coalition.StepNeverEnlarges | src/backend/authz/escalation.ts:27-112 | One such appointment gives a coalition no (capability, unit) pair it did not have |
| Coalition.RunNeverEnlarges | src/backend/authz/escalation.ts:27-112 | Nor does any run of them, from any state, by members and outsiders alike |
| Coalition.DenyBitesAtAnchor | src/backend/authz/collect.ts:139-155 | Under a deny on a subject at its own unit and an allow everywhere, a person may act exactly at the units where the subject is not anchored |
| Coalition.MovedAnchorEnlarges | src/backend/authz/collect.ts:63-122 | Whenever an anchor moves that the guard does not account for, some grant table makes the guard agree and a power be gained |
| Coalition.HarmlessExactly | src/backend/authz/escalation.ts:27-112 | Appointing oneself adds nothing under every grant table exactly when every anchor of one stays at its unit, but for subjects the guard looked at that come from nowhere to the unit of the request |
| Coalition.HarmlessMeans | src/backend/features/people/service.ts:222-260 | Where no live delegation goes into the seat, that is exactly when the seat is held already, or the home unit stays and the role is delegated, or held in no live position, or the seat is over |
| Coalition.AssignAdds | src/backend/features/people/service.ts:222-260 | Such an assignment of a new seat adds exactly the grants on what the seat names and was out of reach before, and moves none |
| GridGuard.Guard | src/backend/middleware/requireNoGrantEscalation.ts:24-81 | Passes exactly when every raised capability is held widely enough, by the bound for unit scopes or the one for self; a refusal names a raised one that is not |
| GridGuard.CountMeansEverywhere | src/backend/middleware/requireNoGrantEscalation.ts:70-72 | If visible ids are units, as many ids as units means all units |
| GridGuard.GuardMeansEverywhere | src/backend/middleware/requireNoGrantEscalation.ts:32-80 | A raise that passes at a unit scope is of a capability the caller is allowed at every unit |
| GridGuard.PassedIsHeldEverywhere | src/backend/middleware/requireNoGrantEscalation.ts:32-80 | A payload that passes allows beyond oneself only what its saver is allowed at every unit |
| GridGuard.ReducingPasses | src/backend/middleware/requireNoGrantEscalation.ts:33-41 | A payload of denies, removals and unknown capabilities always passes |
| GridGuard.SelfRaisePasses | src/backend/middleware/requireNoGrantEscalation.ts:49-69 | A payload that allows only for oneself passes exactly when each such capability is held anywhere at all |
| GridGuard.StaleIdFoolsTheCount | src/backend/middleware/requireNoGrantEscalation.ts:70-72 | A visible id that is no unit makes the count pass although the only unit is out of reach |
| GridGuard.HonestRaise | src/backend/middleware/requireNoGrantEscalation.ts:70-72 | A capability is allowed at every unit exactly when it is seen everywhere, or the units among the visible ids are as many as the units |
| GridGuard.StoredPayloadIsMadeOfCells | src/backend/features/roles/service.ts:229-262 | What a save stores for a role without rows is made of its cells, so what the two guards say of it can be compared |
| GridGuard.RaisedRolesCanBePlaced | src/backend/middleware/requireNoGrantEscalation.ts:32-80 | After the guard passed, a role made of these cells escalates nowhere exactly when each cell at the widest scope is held without any denied unit |
| HeldCapabilities.Held | src/backend/authz/held.ts:10-44 | The hint has exactly the capabilities with a live allow and no live deny everywhere, each with its widest live scope |
| HeldCapabilities.HintCoversEveryCheck | src/backend/authz/held.ts:10-44 | Whatever a check allows on any target is in the hint, at least as wide as each surviving grant |
| HeldCapabilities.OutsideItsWindowHint | src/backend/authz/held.ts:10-44 | A grant outside its window makes no difference to the hint either |
| HeldCapabilities.HintedIsUsable | src/backend/authz/held.ts:10-44 | A capability in the hint is allowed on some target exactly when it has a live allow on everything, one on oneself without a deny on oneself, or allows reaching a unit no deny reaches |
| HeldCapabilities.AllowedExactly | src/backend/authz/resolve.ts:75-101 | On any target a check allows exactly when the live allows bear on it, as a whole, by the person or by the unit, and the live denies do not |
| HeldCapabilities.HintMayOverstate | src/backend/authz/held.ts:10-44 | It can fail: a capability allowed and denied at one unit is in the hint while every check on every target refuses |
| GrantCache.KeyInjective | src/backend/authz/cache.ts:12-13 | Two plain (org, user, version) triples share a key only if equal |
| GrantCache.ReplayIsLastSave | src/backend/authz/cache.ts:16-44 | After any run of lookups, saves and clears the store holds exactly the last saves, but for stale ones that were met |
| GrantCache.HitIsFreshLastSave | src/backend/authz/cache.ts:16-29 | A hit is exactly the list last saved for that triple less than 30 000 ms before |
| GrantCache.Cache.GetCachedGrants | src/backend/authz/cache.ts:16-29 | Returns that list or nothing, dropping a stale entry |
| GrantCache.Cache.SetCachedGrants | src/backend/authz/cache.ts:32-39 | Is one save in the history |
| GrantCache.Cache.ClearGrantCache | src/backend/authz/cache.ts:42-44 | Forgets everything saved before |
| GrantCache.Cache.Answer | src/backend/authz/resolve.ts:38-46 | A question is decided on the fresh remembered list, else on the collected one, which is then remembered |
| RequestMemo.BuiltKeysTellApart | src/backend/middleware/requireCapability.ts:137-151 | Two targets the route guard can build share a memo key only if they are one target under one capability |
| RequestMemo.RouteDecides | src/backend/middleware/requireCapability.ts:137-151 | What a route decides, by its kind, the id of the request and the caller: a person by that id or the caller, oneself by the caller, a unit, subject or campaign at its unit, anything else by the grants on everything |
| RequestMemo.KeysAre | src/backend/authz/resolve.ts:137-142 | Keys are the capability, the kind, and the id if there is one, with colons between |
| RequestMemo.PersonAtUnitWouldCollide | src/backend/authz/resolve.ts:137-142 | A person named with a unit would share keys with another person there, with opposite decisions; no route builds one |
| RequestMemo.DecisionMemo.Resolve | src/backend/authz/resolve.ts:24-34 | Whatever was asked before, the memoised answer is the right decision for this question |
| Jpeg.StripJpeg | src/backend/lib/imageBytes.ts:116-138 | The index loop yields the walked stripping |
| Jpeg.JpegSize | src/backend/lib/imageBytes.ts:47-68 | The index loop yields the size found by the walk |
| Jpeg.WalkIsWhole | src/backend/lib/imageBytes.ts:116-138 | The segments of the walk and the tail make up the file |
| Jpeg.WalkAfterStrip | src/backend/lib/imageBytes.ts:116-138 | The walk over the stripped file is the walk with exactly the APP1, APP13 and COM segments gone, exactly unless the last kept segment is a bare marker with fewer than two bytes behind it |
| Jpeg.StrippedIdempotent | src/backend/lib/imageBytes.ts:116-138 | Stripping twice is stripping once, for every buffer |
| Jpeg.NoMetadataLeft | src/backend/lib/imageBytes.ts:116-138 | The walk over a stripped file finds no metadata segment |
| Jpeg.SizeSurvives | src/backend/lib/imageBytes.ts:47-68 | For every file the measured size is unchanged exactly when the first SOF segment of the walk declares less than two bytes or at least eight, or the size bytes it borrows are the same in what stays behind it |
| Jpeg.SofLengthIsExact | src/backend/lib/imageBytes.ts:47-68 | Behind any whole segments, a SOF header keeps its measured size whatever follows it exactly when it declares such a length |
| Jpeg.MarkerInFront | src/backend/lib/imageBytes.ts:116-138 | The stripped walk begins with a marker exactly when a segment is kept or the tail begins with one |
| Jpeg.ReadsWrittenSize | src/backend/lib/imageBytes.ts:47-68 | Behind any written segments, a SOF segment is measured with the height and width of its bytes five to eight |
| Jpeg.StripsWritten | src/backend/lib/imageBytes.ts:116-138 | A written file is left with exactly its segments other than e1, ed and fe, and its scan |
| Jpeg.ShortSofChangesSize | src/backend/lib/imageBytes.ts:47-68 | With any length from two to seven, the size can be read out of a segment that stripping removes |
| Png.StripPng | src/backend/lib/imageBytes.ts:141-155 | The index loop yields the signature, the kept chunks and the rest |
| Png.WalkAfterStrip | src/backend/lib/imageBytes.ts:141-155 | Re-parsing the stripped file gives exactly the kept chunks in order |
| Png.StrippedIdempotent | src/backend/lib/imageBytes.ts:141-155 | Stripping twice is stripping once, and no dropped chunk type is left |
| Png.StripsWritten | src/backend/lib/imageBytes.ts:141-155 | A written file is left with its signature and exactly its chunks other than eXIf, tEXt, zTXt, iTXt and tIME, up to the end chunk |
| Png.SizeSurvives | src/backend/lib/imageBytes.ts:41-44 | A measured size survives exactly when the header chunk is complete, and declares at least four bytes or borrows bytes that are the same in what stays behind it |
| Png.ShortHeaderChangesSize | src/backend/lib/imageBytes.ts:141-155 | Behind a header chunk without data the height is the length of the next chunk, so removing that changes it |
| Webp.StripWebp | src/backend/lib/imageBytes.ts:158-184 | Loop, flag clearing and RIFF size rewriting yield the rebuilt file, or the file itself when nothing was dropped |
| Webp.WebpSize | src/backend/lib/imageBytes.ts:71-89 | The loop yields what the first telling chunk says of the size |
| Webp.WalkOfWhole | src/backend/lib/imageBytes.ts:97-106 | Writing whole chunks and walking over them gives them back, and then the walk of what follows |
| Webp.WalkAfterStrip | src/backend/lib/imageBytes.ts:158-184 | Re-parsing the stripped file gives the kept chunks in order with only the EXIF and XMP bits of VP8X cleared, exactly unless the last chunk is cut off so far that the second walk misses it; and the RIFF size field is the length less eight |
| Webp.StrippedIdempotent | src/backend/lib/imageBytes.ts:158-184 | For every buffer, stripping twice is stripping once exactly when the last chunk survives the second walk, or was the only one kept |
| Webp.NoMetadataLeft | src/backend/lib/imageBytes.ts:158-184 | No EXIF or XMP chunk, and no flag announcing one, is left |
| Webp.ReadsWrittenSize | src/backend/lib/imageBytes.ts:71-89 | Behind any other chunks, the width and height written into an extended header, a lossy frame or a lossless stream are read back |
| Webp.StripsWritten | src/backend/lib/imageBytes.ts:158-184 | A written file is written anew with exactly its chunks other than EXIF and XMP, the two bits that announce them taken out, and its own length in front |
| Webp.SizeSurvives | src/backend/lib/imageBytes.ts:71-89 | For every buffer, the measured size is unchanged exactly when the last chunk survives or does not tell it |
| Webp.CutChunkIsLostLater | src/backend/lib/imageBytes.ts:97-106 | A chunk cut off by the end of the file is kept by one stripping and lost by the next |
| Images.PngFactsSurvive | src/backend/lib/imageBytes.ts:17-25 | A measured PNG is still the same PNG after stripping exactly when its header chunk holds its size in that sense |
| Images.JpegFactsSurvive | src/backend/lib/imageBytes.ts:17-38 | A measured JPEG is still the same JPEG after stripping exactly when its first SOF segment keeps its size in that sense, and a segment is kept or the tail begins with a marker |
| Images.WebpFactsSurvive | src/backend/lib/imageBytes.ts:17-25 | A measured WebP is still the same WebP exactly when its last chunk survives stripping or does not tell the size |
| Images.SniffsPng | src/backend/lib/imageBytes.ts:11-44 | A PNG with a header of a width and a height is found to be a PNG of that width and height |
| Images.SniffsJpeg | src/backend/lib/imageBytes.ts:11-68 | A JPEG with a SOF segment of a width and a height behind any written segments is found to be that |
| Images.SniffsWebp | src/backend/lib/imageBytes.ts:11-89 | A WebP whose first telling chunk says a width and a height is found to be that |
| ZodSchema.ApplyStringChecks | src/backend/openapi/zodSchema.ts:66-82 | The loop leaves, for each bound, the one set last |
| ZodSchema.ApplyNumberChecks | src/backend/openapi/zodSchema.ts:84-93 | The loop leaves the type and bounds set last |
| ZodSchema.ConvertShape | src/backend/openapi/zodSchema.ts:144-158 | One pass gives every property its translation and requires exactly the keys that are not optional-looking |
| ZodSchema.RequiredAre | src/backend/openapi/zodSchema.ts:144-158 | Required are exactly the keys whose schema is neither optional nor defaulted at the top |
| ZodSchema.DefaultIsPublished | src/backend/openapi/zodSchema.ts:188-191 | A default is published beside an otherwise unchanged schema |
| ZodSchema.TagIs | src/backend/openapi/zodSchema.ts:170-176 | The tag of a case is the literal under its first property of that name |
| ZodSchema.StringAgreesExactly | src/backend/openapi/zodSchema.ts:66-82 | A checked string is published faithfully exactly when its last bounds are its tightest, or nothing fits between them |
| ZodSchema.NumberAgreesExactly | src/backend/openapi/zodSchema.ts:84-93 | A checked number is published faithfully exactly when the ends of its published range pass every bound, or the range is empty |
| ZodSchema.SingleInclusiveBoundsPass | src/backend/openapi/zodSchema.ts:84-93 | Inclusive bounds, at most one of a kind, pass at those ends |
| ZodSchema.ExclusiveBoundIsLost | src/backend/openapi/zodSchema.ts:84-93 | An exclusive bound admits its own value once published |
| ZodSchema.TagIsCarried | src/backend/openapi/zodSchema.ts:170-176 | An accepted object carries the literal of its tag |
| ZodSchema.TagDecides | src/backend/openapi/zodSchema.ts:170-176 | With differing tags, exactly one published case is valid exactly when the parser takes the case of the tag |
| ZodSchema.NullIsOpen | src/backend/openapi/zodSchema.ts:180-187 | Where null fits, no type-less keyword is left to refuse it |
| ZodSchema.PublishedIsFaithful | src/backend/openapi/zodSchema.ts:99-210 | For every schema meeting these exact conditions at every level, nested at will, a value validates against the published form exactly when the parser takes it |
| ZodSchema.NullableEnumRefusesNull | src/backend/openapi/zodSchema.ts:180-187 | A nullable over an enumeration, at any depth of optional, default and nullable, refuses null once published |
| ZodSchema.NullableAgreesExactly | src/backend/openapi/zodSchema.ts:180-187 | Over a faithful schema a nullable is faithful exactly when it wraps no enumeration |
| ZodSchema.ObjectAgreesExactly | src/backend/openapi/zodSchema.ts:144-158 | An object of faithful, satisfiable properties under distinct keys is faithful exactly when every key the parser lets be missing is optional or defaulted at the top, and no other |
| ZodSchema.NullableOptionalIsRequired | src/backend/openapi/zodSchema.ts:213-218 | A key that is optional under a nullable may be left out, but is published as required |
| Paginate.AnswerExists | src/backend/lib/paginate.ts:36-45 | For every table, cursor and limit there is an answer in order after the cursor |
| Paginate.AnswerUnique | src/backend/lib/paginate.ts:36-45 | And only one |
| Paginate.PageSettles | src/backend/lib/paginate.ts:60-76 | A page returns rows after its cursor in order, and every other row after the cursor comes after its last row |
| Paginate.ShadowsMeans | src/backend/lib/paginate.ts:12-17 | A cursor leaves out, of what follows its row, exactly the rows of the same millisecond, but for those at its very start with a lower id |
| Paginate.RunDescends | src/backend/lib/paginate.ts:36-76 | Whatever happens to the table between requests, a run returns strictly descending (createdAt, id) |
| Paginate.NeverTwice | src/backend/lib/paginate.ts:36-76 | No row is returned twice |
| Paginate.MissedExactlyInShadows | src/backend/lib/paginate.ts:12-76 | A finished run returns a row present throughout exactly when no page ended on a row that shadows it |
| Paginate.NothingMissed | src/backend/lib/paginate.ts:36-76 | With instants in whole milliseconds every row present throughout is returned |
| Paginate.RestingTableExactly | src/backend/lib/paginate.ts:12-76 | On a table at rest, runs of every limit return every row exactly when no row of the table shadows another |
| Paginate.OneMillisecondLosesARow | src/backend/lib/paginate.ts:12-17 | Two rows of one millisecond and pages of one: the second is never returned |
| Paginate.NothingInvented | src/backend/lib/paginate.ts:60-76 | Every returned row was in the table at some request |
| Paginate.QuietRunFinishes | src/backend/lib/paginate.ts:60-76 | On a table at rest there are no more pages with more to come than rows ahead |
| RotatingLog.RotatingStream.OpenDay | src/backend/lib/logFile.ts:74-99 | Opens the first file of the day that is missing or not full, and counts its bytes |
| RotatingLog.RotatingStream.PurgeOld | src/backend/lib/logFile.ts:102-117 | Removes exactly the files whose day began before the retention |
| RotatingLog.RotatingStream.WriteChunk | src/backend/lib/logFile.ts:127-146 | Opens a new day, rotates or stays, then appends and counts |
| RotatingLog.RotatingStream.constructor | src/backend/lib/logFile.ts:119-124 | A stream starts on the day it is made, then purges |
| RotatingLog.WriteKeeps | src/backend/lib/logFile.ts:127-146 | Every write keeps files, byte count and record of what was written in step |
| RotatingLog.PurgeKeeps | src/backend/lib/logFile.ts:102-117 | A purge removes whole days only, never one within the retention |
| RotatingLog.ExpiredMeans | src/backend/lib/logFile.ts:102-117 | Files go that are older than the retention in days, or exactly that old once midnight is past |
| RotatingLog.FilesTellTheDays | src/backend/lib/logFile.ts:74-146 | After any writes with dates in order, from a start without files of the first day or a day written: every kept day is told by its files in index order, the byte count is the size of the open file, every file is within the limit or one chunk |
| RotatingLog.RetentionKeepsToday | src/backend/lib/logFile.ts:102-124 | The file just opened survives the first purge exactly when there is a retention, or it is midnight |
| RotatingLog.RotateCountsNewFilesOnly | src/backend/lib/logFile.ts:134-139 | The count after rotating is right exactly when the file rotated into is new or empty |
| CivilTime.CivilRoundTrip | src/backend/billing/period.ts:6-12 | Month and date are read back from a day number, for every month before and after the epoch |
| CivilTime.YearLength | src/backend/billing/period.ts:6-12 | Twelve months make 365 days, or 366 in a leap year |
| CivilTime.EpochIsJanuary1970 | src/backend/billing/period.ts:6-12 | Day 0 is the first of January 1970 |
| CivilTime.YearStart | src/backend/billing/period.ts:6-12 | The day number of the first of January of every year, by the rule of leap years |
| CivilTime.DateNumber | src/backend/billing/period.ts:6-12 | The day number of every date, by year, month and day |
| Period.UtcDate.SetUTCMonth | src/backend/billing/period.ts:9 | Moves the month and keeps the date number, running on into the next month where it is too large |
| Period.UtcDate.SetUTCDate | src/backend/billing/period.ts:10 | Date zero is the last day of the month before |
| Period.PeriodEndFrom | src/backend/billing/period.ts:6-12 | The date steps yield the clamped day one month on |
| Period.PeriodsLand | src/backend/billing/period.ts:6-12 | n periods advance n months, keep the time of day, and land on the smaller of the start date and the shortest month passed |
| Period.PeriodLength | src/backend/billing/period.ts:6-12 | A period lasts 28 to 31 whole days |
| Period.PeriodMonotoneOnDays | src/backend/billing/period.ts:6-12 | A later start day never ends on an earlier day |
| Period.LaterEndsNoEarlier | src/backend/billing/period.ts:6-12 | A later start ends no earlier exactly unless both starts lie in one month, the earlier at or past the last day of the next month and later in its day |
| Period.NotMonotoneOnInstants | src/backend/billing/period.ts:6-12 | Two such starts end in the other order |
| Period.LastDayIsPaid | src/backend/billing/period.ts:21-24 | A period has ended exactly on the days after its last |
| Period.TrialPeriod | src/backend/billing/period.ts:34-39 | A trial ends fourteen days on at the same time of day, across any month |
| Period.FromMarchToApril | src/backend/billing/period.ts:6-12 | A period from 31 March 2023 ends on 30 April 2023 |
| LogFormat.LevelRoundTrip | src/backend/lib/logFormat.ts:11-21 | Every level number is read back from its name |
| LogFormat.LevelNamesAre | src/backend/lib/logFormat.ts:6-13 | The six names, and the number behind an L for any other level |
| LogFormat.LevelsReadAre | src/backend/lib/logFormat.ts:16-21 | Read are exactly the six names, and an L with at least one digit and nothing else |
| LogFormat.StampRoundTrip | src/backend/lib/logFormat.ts:24-41 | For every whole-minute offset under a day and four-digit local year, a stamp is read back as its instant rounded down to the second |
| LogFormat.StampShows | src/backend/lib/logFormat.ts:24-33 | A stamp shows the local date and time of its instant and the offset, for every date, time and offset |
| LogFormat.EpochStamp | src/backend/lib/logFormat.ts:24-33 | The first instant is stamped 1970-01-01 00:00:00 UTC+00:00 |
| LogFormat.InstantShows | src/backend/lib/logFormat.ts:36-41 | The instant a clock is read as shows that clock |
| LogFormat.MatchesAre | src/backend/lib/logFormat.ts:36-38 | Looked at are exactly the texts of a date, a time and an offset in two-digit parts, punctuated as written |
| LogFormat.RangeIsWhatIsShown | src/backend/lib/logFormat.ts:36-41 | The clocks accepted are exactly those that some instant shows, and midnight written as the end of a day |
| LogFormat.EndOfDay | src/backend/lib/logFormat.ts:36-41 | Midnight written as the end of a day is the start of the next |
| PowersGrid.FillLaw | src/frontend/lib/roles.ts:283-294 | A filled row says one thing in every listed role and nothing in any other; other rows stay |
| PowersGrid.CopyLaw | src/frontend/lib/roles.ts:263-274 | A copied column replaces the target column and nothing else; copied onto itself it is cleared |
| PowersGrid.WriteLaw | src/frontend/lib/roles.ts:245-254 | A written cell says its choice, and no other cell changes |
| PowersGrid.UndoRewinds | src/frontend/lib/roles.ts:230-242 | After any edits, k undos leave what fewer edits would have left; as many undos as edits restore the start |
| PowersGrid.DiffIsEmptyWhenClean | src/frontend/lib/roles.ts:342-350 | There is nothing to send exactly when the screen is not dirty |
| PowersGrid.SaveLaw | src/backend/features/roles/service.ts:229-262 | A save replaces the rows of every cell it names by the last such cell, and touches no other row |
| PowersGrid.LoadLaw | src/frontend/lib/roles.ts:200-217 | A loaded grid shows the last row of every cell |
| PowersGrid.SaveReachesTheWorkingCopy | src/frontend/lib/roles.ts:311-330 | After the saved diff is applied, every cell loads with the scope and effect of the working copy |
| PowersGrid.ParamsArriveWhenSent | src/frontend/lib/roles.ts:317-322 | A cell ends with the parameters of the working copy exactly when it was sent for its scope or effect, or had them already |
| PowersGrid.SittingIsSaved | src/frontend/lib/roles.ts:230-330 | So for any sitting: load, any edits and undos, save |
| PowersGrid.Grid.Load | src/frontend/lib/roles.ts:200-223 | Working copy and saved matrix are the loaded rows, and there is nothing to undo |
| PowersGrid.Grid.SetCell | src/frontend/lib/roles.ts:256-261 | Is one edit of the sitting |
| PowersGrid.Grid.CopyColumn | src/frontend/lib/roles.ts:263-276 | The two loops are one edit of the sitting |
| PowersGrid.Grid.FillRow | src/frontend/lib/roles.ts:283-294 | The two loops are one edit of the sitting |
| PowersGrid.Grid.Undo | src/frontend/lib/roles.ts:296-303 | Steps back one edit, or stays where there is none |
| PowersGrid.Grid.Diff | src/frontend/lib/roles.ts:316-329 | The payload names every changed cell once and every removed one without a scope, and nothing else |
| PowersGrid.Grid.IsDirty | src/frontend/lib/roles.ts:342-350 | Is the comparison of sizes and cells |
| RoleMatrix.AssertSomebodyCanStillEdit | src/backend/features/roles/service.ts:277-305 | Lets pass exactly the payloads that leave the power alone or leave a role whose last row allows it |
| RoleMatrix.WriteMatrix | src/backend/features/roles/service.ts:215-272 | Refuses for the first unknown role or capability, else for lockout, else stores the applied payload |
| RoleMatrix.GuardIsExact | src/backend/features/roles/service.ts:277-305 | The guard foresees exactly whether the stored matrix will have such a role |
| RoleMatrix.PassesMeans | src/backend/features/roles/service.ts:274-305 | A save passes exactly when it names no cell of the power, or some role is left whose last row allows it |
| RoleMatrix.SetCellIsStored | src/frontend/lib/roles.ts:245-261 | After a cell is set and saved, whatever was edited before, its stored rows are one deny everywhere for a block, one allow for a scope, none for nothing, or what they were where they said so already |
| RoleMatrix.FilledRowIsStored | src/frontend/lib/roles.ts:283-294 | So are those of every listed role of a filled row, and those of other roles are gone |
| RoleMatrix.MeantHolds | src/backend/features/roles/service.ts:229-262 | Such rows hold the power exactly when a scope was given and no deny was left under a row that said so already |
| RoleMatrix.ChoiceDecides | src/frontend/lib/roles.ts:245-261 | A block or nothing leaves a role without the power, a scope gives it |
| RoleMatrix.SomebodyAlwaysHolds | src/backend/features/roles/service.ts:274-305 | Over any run of guarded saves from one row a cell, some role always holds the power |
| RoleMatrix.HoldsAfterSave | src/backend/features/roles/service.ts:215-272 | On any table a role holds the power after a save exactly when its last cell sent allows it, or none was sent and its rows are there and all allow |
| RoleMatrix.SomebodyAfterSave | src/backend/features/roles/service.ts:215-305 | Somebody holds it after a save exactly when some role meets that condition |
| RoleMatrix.FooledExactly | src/backend/features/roles/service.ts:277-305 | A save leaves nobody exactly when every role the guard counts was sent no cell and has a deny among its rows |
| RoleMatrix.AlwaysSomebodyExactly | src/backend/features/roles/service.ts:274-305 | From any table where somebody holds the power, somebody does throughout a run of saves exactly when each save meets that condition |
| RoleMatrix.BothRowsFoolTheGuard | src/backend/features/roles/service.ts:293-299 | With an allow and a deny row on one role the guard counts a role that holds nothing, and lets the last holder go |
| Multipart.LookAtPart | src/backend/middleware/upload.ts:144-166 | The index arithmetic of one round does what a look at the rest of the body does |
| Multipart.FindFilePart | src/backend/middleware/upload.ts:138-170 | The cursor loop ends, and yields the search over the rest of the body |
| Multipart.PartIsWritten | src/backend/middleware/upload.ts:138-166 | A part is its delimiter, its head, an empty line, its content and the end of the line, byte by byte |
| Multipart.EndIsWritten | src/backend/middleware/upload.ts:146-147 | A body ends with a delimiter and two dashes |
| Multipart.FirstWantedMeans | src/backend/middleware/upload.ts:160-167 | Found is the first part whose head names the field and a file, with what its head says and its content |
| Multipart.FreeOfMeansNoOccurrence | src/backend/middleware/upload.ts:142-151 | A stretch is free of a delimiter exactly when none begins inside it |
| Multipart.FindsTheFirstWanted | src/backend/middleware/upload.ts:138-170 | On every body written from parts, with no delimiter but at its lines, the result is exactly the first wanted part, byte for byte, or nothing |
| Multipart.NoDelimiterInside | src/backend/middleware/upload.ts:151-166 | Whatever the body, the bytes handed out hold no delimiter |
| Multipart.CutBodyIsTakenWhole | src/backend/middleware/upload.ts:138-166 | A body cut off inside a part, after any preamble and whole parts, yields what the whole body would, with everything up to the cut as the content of that part |
| Multipart.Collector.OnData | src/backend/middleware/upload.ts:113-125 | A chunk is kept and counted, or ends the reading when it passes the limit |
| Multipart.Collector.OnEnd | src/backend/middleware/upload.ts:126-130 | The end hands over the chunks in order, unless already settled |
| Multipart.Collector.OnError | src/backend/middleware/upload.ts:105-111 | A broken request fails the reading unless it is settled |
| Multipart.NeverHoldsMore | src/backend/middleware/upload.ts:96-125 | Over any events, no more than the limit is ever held or handed over |
| Multipart.ReadsWholeBodies | src/backend/middleware/upload.ts:97-133 | A body read to its end is accepted, whole and in order, exactly when it is within the limit |
| Totp.GenerateSecret | src/backend/platform/totp.ts:25-34 | The bit loop yields the base32 letters of the bytes |
| Totp.DecodeBase32 | src/backend/platform/totp.ts:37-47 | The two loops yield the decoded bytes, or an error |
| Totp.DecodeEncode | src/backend/platform/totp.ts:25-47 | Decoding gives back the bytes when their number is a multiple of five, and all but the last otherwise |
| Totp.DecodeIsLenient | src/backend/platform/totp.ts:39 | Case, as upper-casing sees it, and trailing padding make no difference |
| Totp.AlphabetIs | src/backend/platform/totp.ts:5 | The alphabet is A to Z and 2 to 7 |
| Totp.UpperIs | src/backend/platform/totp.ts:39 | Small letters become their capitals, which stay |
| Totp.UpperIsAlso | src/backend/platform/totp.ts:39 | So do the other characters that upper-casing makes basic letters of |
| Totp.UpperLeavesOthers | src/backend/platform/totp.ts:39 | Any other character stays, as far as the alphabet is concerned |
| Totp.CollectsLetters | src/backend/platform/totp.ts:39-43 | Decoding succeeds exactly on text of the alphabet |
| Totp.MessagesTellApart | src/backend/platform/totp.ts:51-52 | No two counters give one message to sign |
| Totp.Truncate | src/backend/platform/totp.ts:54-59 | For every 20-byte digest the four bytes are inside it and the number is below 2^31 |
| Totp.TruncateIsShifted | src/backend/platform/totp.ts:54-59 | It is seven bits of the first byte and eight of each other, in that order |
| Totp.CodesExistForReadableSecrets | src/backend/platform/totp.ts:37-61 | There is a code exactly for a secret written in the alphabet |
| Totp.CodesAreSixDigits | src/backend/platform/totp.ts:50-61 | A code is six decimal digits, the truncated number modulo a million |
| Totp.VerifyCode | src/backend/platform/totp.ts:68-78 | Accepts exactly the codes of the three steps of the window, and answers exactly where the secret is readable and the steps can be written |
| Totp.GoodForThirtySeconds | src/backend/platform/totp.ts:64-78 | A code shown at one moment is accepted at every moment up to thirty seconds before or after |
| UnitNames.ReadsNumberRange | packages/shared/src/dto/unit.ts:50-74 | Any trimmed name on one line, a blank and a range of numbers below a million is read back as that name and range |
| UnitNames.ReadsLetterRange | packages/shared/src/dto/unit.ts:50-74 | So is a range of letters, in either case |
| UnitNames.TailHasNoBlank | packages/shared/src/dto/unit.ts:50 | No range end has a blank in it, so the shortest stem is the whole name |
| UnitNames.BlanksAre | packages/shared/src/dto/unit.ts:50 | Blanks, line ends and letters, by code |
| UnitNames.TailMeans | packages/shared/src/dto/unit.ts:50 | A range end is exactly two numbers of one to six digits or two letters around two dots, and means those |
| UnitNames.MatchIsFirst | packages/shared/src/dto/unit.ts:50-74 | A name is split exactly at the first place with a range end behind blanks, on its first line |
| UnitNames.PlainNameIsKept | packages/shared/src/dto/unit.ts:61-74 | Without such a place, or with no name before it, the trimmed text is the name |
| UnitNames.ExpandsToDistinctNames | packages/shared/src/dto/unit.ts:76-87 | A range expands to as many names as it counts, all different exactly unless two or more letters run past Z |
| Subscription.JoinsCost | packages/shared/src/tiers.ts:221-239 | A join that is let through costs more than nothing, and the clamp at zero plays no part |
| Subscription.PublishedPrices | packages/shared/src/tiers.ts:107-222 | The four prices, and the published example of a walk up to Gold |
| Subscription.JoinsUp | src/backend/features/billing/service.ts:204-235 | A join is let through to a dearer tier on sale, or to any on sale during a trial |
| Subscription.SchedulesDown | src/backend/features/billing/service.ts:298-330 | A move is scheduled from a running plan to a cheaper tier |
| Subscription.PeriodEndMeans | src/backend/features/billing/service.ts:90-125 | A period ends in the cheaper tier that was named, rolls on in the lowest, or runs out into it |
| Subscription.EventPays | src/backend/features/billing/service.ts:118-290 | Each event adds to the ledger the difference, the full price, a row of nothing when the tier changes by itself, or no row |
| Subscription.ScheduledMoveHappens | src/backend/features/billing/service.ts:90-161 | A scheduled move happens when the period ends, for nothing; a cancelled one does not |
| Subscription.RefusedChangesNothing | src/backend/features/billing/service.ts:204-330 | What is refused changes neither plan nor ledger |
| Subscription.PaidIsDue | packages/shared/src/tiers.ts:196-239 | After any joins, schedules, cancellations and period ends, the payments of the running period are the price of the tier in force less that of a tier it began with for nothing; a trial or lapsed period brought in nothing |
| Subscription.PaidInFull | src/backend/features/billing/service.ts:90-161 | The tier in force is paid in full exactly in periods that began with a purchase |
| Subscription.WalkCostsTheLastTier | packages/shared/src/tiers.ts:196-222 | A walk up the ladder inside the first period pays the price of its last tier |
| Subscription.WalkIsCharged | packages/shared/src/tiers.ts:221 | Over any walk up and down, the total charged is the price of the last tier and the sum of the drops |
| Subscription.FreeTierIsCounted | src/backend/features/billing/service.ts:101-108 | After a free roll-over a move up is charged less a tier nothing was paid for in that period |
| Subscription.GateAgreesWithPage | src/backend/billing/effective.ts:14-21 | The tier the gate derives without writing is the tier the plan page will write |
| Subscription.TwoTabsPayOnce | src/backend/features/billing/service.ts:252-275 | Of two joins checked against one reading only the first to write goes through |

## Left out

- Coalition.RunNeverEnlarges: the condition on each step is sufficient for a group, and exact for appointing oneself (Coalition.HarmlessExactly). A new assignment is live at once, and its position is read after those held before.
- Coalition.HarmlessMeans: for seats no live delegation goes into; with one, Coalition.HarmlessExactly says it in terms of anchors.
- Paginate.NothingMissed: needs whole-millisecond instants; the exact statements without them are Paginate.MissedExactlyInShadows and Paginate.RestingTableExactly.
- ZodSchema.ApplyStringChecks: formats and patterns, which are published as they are, and transforms.
- ZodSchema.PublishedIsFaithful: the conditions are exact level by level, given what lies inside agrees; unions, arrays and records add none, and tagged unions are those their constructor accepts, whose cases carry differing literals.
- RotatingLog.FilesTellTheDays: for a retention of at least one day, and a start without files of the days written; a file found there is appended to (RotatingLog.RotatingStream.OpenDay).
- Database access: units, links, memberships and grant rows are inputs, and every query sees one instant; row locks and transactions are not modelled, apart from the compared update of a plan.
- Collection: memberships are those already live; the support window is read elsewhere, and its catalogue and blocked list are inputs.
- The wording of refusals, and the choice of a mode of combining limits, which no caller makes.
- The order in which rows, sets and maps are walked is any order; results are stated so that it does not matter.
- Graph queries: the order of rows and duplicates of the recursive query beyond its first visit; the listing of positions.
- Schema translation: coercion, effects, pipelines, catches, native enumerations, dates, formats and patterns, exact array lengths, references and recursion; string lengths count characters, not code units, and numbers are reals.
- Images: files of 2^32 bytes and more, whose RIFF size field cannot hold their length.
- Pagination: the text of a cursor and its refusal when broken, and the total; the database driver hands over milliseconds and drops the rest.
- Rotating log: failing off, closing, resuming after a restart, daylight-saving changes, other files in the directory, and file names, which are pairs of day and index here.
- Log lines: only level and time; the rest of the line and its parser are not part of this model, and level numbers are not limited to exact doubles.
- Calendar: the range limit of JavaScript dates.
- Powers grid: React state scheduling, loading and error states, and a save that fails; stored parameters are whole numbers.
- Role matrix: audit entries, versions, and the validity dates and authors of rows.
- Uploads: boundary detection, the header patterns (a function that reads a head is a parameter), the checks after parsing, and the transport.
- One-time codes: the keyed hash is a parameter with 20-byte results; comparing in constant time, and the provisioning URL.
- Subscriptions: dates (the end of a period is an event), cancelled plans, operator overrides, payers and references.
- Unit name ranges: the caps on a request, and the other unit shapes.
- Booking capacity, idempotency keys, sessions, rate limits and the other routes.
