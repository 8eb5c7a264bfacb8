# Rovr: the core, modelled and proved

Rovr is a tiling window manager for macOS. Its core keeps one binary tiling tree per native Space,
binds logical workspaces (`1`..`9` on each display) to native Spaces whose ids the system may change
at any time, and changes the set of Spaces one mutation at a time against a platform that answers
late, refuses, or does not answer. This project models that core and proves what it keeps:

* **Workspaces and Spaces** (`Observed`, `Workspace`, `Remap`, `RemapAgain`, `Lifecycle`, `Engine`).
  `Lifecycle` gives every stage of a snapshot pass, every command and the failure report as a
  function on a `State`. `Engine` is the engine object: the same fields, updated in place, with its
  loops over hash maps walked in any order; each method is proved to land in the state, and to answer
  with the actions, of its `Lifecycle` stage. `Remap.WorkspaceRegistry` does the same for the
  positional remap. `Visit` stands for the orders hash maps are walked in.
* **Runs of that machine** (`Runs`, `Creation`, `LastSpace`, `SpaceOrder`, `Placement`, `StripOrder`,
  `Staying`, `Homes`, `RestoreSpace`, `OrphanRequest`, `SharedFullscreen`, `TreeOwnership`,
  `TreeSurvival`, `ParkedTrees`, `StrandedTree`, `TreeLosses`, `OneTreeRuns`, `Persistence`, `Start`,
  and the example runs `PlainRuns`, `OrphanRun`, `SplitViewRun`). A `Turn` is an event or command, the window actions its batch also carries,
  and the index of the action the platform refused. Main results: single flight, creation that cannot wedge,
  no display losing its last Space, the sorter's 2n-3 bound, distinct ownership of Spaces, restore
  Spaces returned, strips sorted by name, and trees that follow their workspace through resets and restarts. `Start` states
  single flight, the last Space and distinct ownership from the moment the engine is started.
* **What exactly a pass decides** (`Spared`, `PersistentRuns`, `Collecting`, `Vanishing`, `Arrivals`, `Memory`,
  `Adoption`, `Filing`, `Intents`, `Requests`, `Configuration`, `NameOrder`, `Events`). These say, in terms of the registry, the
  queues and the snapshot rather than of the stages, who is kept and who goes, whose Space is
  destroyed, what strangers' Spaces are called and how long they are left alone, what a window on its
  way to fullscreen leads to, what becomes of the creation in flight, which focus or move is answered
  with which Space, and in which order names stand. `PersistentRuns` follows persistent workspaces, and
  `Intents` what was asked for, over whole runs.
* **Tiling** (`Geometry`, `BspNode`, `BspSync`, `BspGeometry`, `BspResize`, `BspAlgebra`, `BspGrowth`, `Tree`,
  `StatelessLayout`, `PluginValidation`). Values for nodes, a class `BspTree` for the tree a Space
  keeps. `BspResize` says which split an edge resize moves and how far the edge travels; `BspGeometry`
  says exactly how much room a tiling needs; `BspGrowth` says what shape new and warped windows make.
* **Policy and difference** (`ApplyLayout`, `LayoutPass`, `Policy`, `LayoutChoice`, `Reconcile`, `Fixpoint`): one
  layout pass, which windows it arranges, where and by which layout, the difference it leads to, and
  the fixpoint a faithfully executed round reaches.
* **Navigation** (`SpaceCursor`) and **the platform worker** (`BoundedWorker`): both as objects with
  their cells, driven by arbitrary interleavings.

`f64` is modelled as exact `real`, `Instant` as a natural number of milliseconds, hash maps as maps
with an arbitrary enumeration, compiled rule patterns as arbitrary predicates. `Basics` holds
sequences, sorting and the arbitrary enumeration.

## What the results rest on

* `Runs`, `Creation`: a clock that does not run backwards. A run may refuse any action.
* `LastSpace.NoDisplayLosesLastSpace`: ordinary Spaces vanish only by destroys the engine issued
  and the platform accepted; they may be carried out at any later time.
* `Homes.HomesStayDistinct`, `RestoreSpace`: the engine has seen its first snapshot, and every
  complete look is `Orderly`, which a caller can judge from the state and the snapshot: owned Spaces
  that disappeared do not reappear, and every queued creation is for a workspace that lasts or every
  Space in use is a lasting workspace's own. Without the second part it can fail:
  `OrphanRun.OrphanRequestDoublesOwner` is a run from a start that ends with two owners, and
  `OrphanRequest.PassDistinctIff` says exactly when a pass makes them.
* `Spared`, `PersistentRuns`: that a Space is spared rests on distinct owners, hence on orderly looks; that
  a persistent workspace is kept does not. Its display has to be observed at every complete look, since
  the configuration sync drops the workspaces of a missing one.
* `Collecting`, `Vanishing`, `Memory`, `Arrivals`: single passes, from the state bindings settle in or from the
  snapshot, as their contracts say. `Adoption.AdoptedByPlace` takes every workspace to go by the name and
  display it is filed under, which `Filing.AlwaysFiled` shows of every run, and enough 32-bit numbers to be left.
* `Intents.IntentsAreNotLost`: no look gives cause to forget the workspace (its display missing, its destroy
  confirmed, its creation given up, a volatile one's Space gone).
* `StripOrder.StripsSettle`: the platform carries each MoveSpace out before it is looked at again,
  time is left, and passes come no earlier than the retry time. The order reserved is the engine's own.
* `TreeSurvival.TreesSurviveReset`: all Space ids are new, no tree sits on one yet, a tree is parked
  only for a workspace without a Space (`OneTreeRuns.OneTreeAlways` shows that of every run), and no
  window shows native fullscreen that came out of a workspace's Space. Where one did, the tree stays on
  a Space that is gone: `StrandedTree.EnteredTreeIsLeftBehind`, `StrandedTree.LeavingKeepsTreeIff`.
  `Persistence.TreesSurviveRestart` needs none of the last part.
* `ParkedTrees.ParkedTreeReturns`: an orderly look that gives no cause to forget the workspace.
* Trees are not conserved in general. `TreeLosses.RebindLosesIff` says of any state exactly when the
  remap stage loses one, `TreeLosses.RebindKeepsAllIffRoomy` says it of sound states in terms of what is
  there before the stage, and `TreeLosses.ReturnOverwrites` is a state in which no move is to an
  occupied place and a tree is lost all the same. `TreeOwnership.MoveLosesIffOccupied` is the single move.
* `WalksAll`, in the tree results and in `StripOrder`, says that the walks over displays, workspaces and
  parked trees reach all there is; `Engine.Engine.ApplySnapshot` establishes it for every snapshot.
* `SpaceCursor.StepsAddUp`: the display's strip of at least two Spaces stays as it is.
* `Fixpoint.RoundReachesFixpoint`: observation is fresh, no window is closing, no plugin, no focus
  target, rules do not look at where a window is, and a rule's target Space is on the display asked for.

## Where the code differs from what is written about it

The model follows the code.

* `crates/rovr-daemon/src/main.rs:1784-1785` and `crates/rovr-core/src/engine.rs:609-612` call CreateSpace
  the last action of a batch; shadow actions may follow it (`engine.rs:1897-1903`).
  `Runs.RefusalReleasesUnrun` therefore allows window actions on both sides.
* `crates/rovr-core/src/engine.rs:952-954` says a fullscreen Space can never back two workspaces. The
  Spaces already shown are gathered before the loop, so a split view can be claimed twice in one pass:
  `SplitViewRun.SplitViewIsShared`, with the exact condition in `SharedFullscreen.UnsharedIffApart`.
* `crates/rovr-core/src/engine.rs:1706-1709` calls the configuration sync additive; it drops every
  workspace of a display that is not observed (`crates/rovr-core/src/workspace.rs:174-177`).
* `crates/rovr-core/src/workspace.rs:252-287`: Spaces kept back for fullscreen workspaces are gathered
  before those on unobserved displays are cleared, so a remap need not be idempotent:
  `RemapAgain.RemapTwiceIffEnough`.
* `crates/rovr-core/src/engine.rs:414-421` says that no workspace's tree is dropped; moves and reattachment
  (`engine.rs:1795-1803`) put trees in place over whatever tree is there: `TreeLosses.RebindLosesIff`.
* `crates/rovr-core/src/engine.rs:557-565`: a request whose display shows no Space stays in front, even when
  it is moot, and holds up the creations of every display: `Creation.QueueProgress`.
* `crates/rovr-core/src/bsp.rs:459-470`: mirroring keeps ratios, so it is a half turn of the picture
  only on even trees: `BspAlgebra.MirrorTurnsIffHalves`.
* `crates/rovr-core/src/bsp.rs:200-212`: a split with less room than its gap puts its second part
  outside the area: `Geometry.SplitOverflows`, with the exact room in `BspGeometry.TilesIffEnough`.
* `crates/rovr-platform/src/bounded_worker.rs:123-124` says results of older epochs are discarded;
  polling an older epoch discards a newer result as well, as `BoundedWorker.BoundedWorker.Poll` states.

## Model

| member | source | states |
|---|---|---|
| Runs.SettlingFreesFlight | crates/rovr-core/src/engine.rs:1642-1790 | up to the point where bindings settle, a complete snapshot starts no mutation: the number of reservations can only go down |
| Runs.AdvanceAccounts | crates/rovr-core/src/engine.rs:1790-1849 | after bindings settle, a snapshot answers with at most one of CreateSpace, DestroySpace and MoveSpace; one that creates or destroys starts from nothing in flight and leaves exactly its own reservation |
| Runs.RespondAccounts | crates/rovr-core/src/engine.rs:1622-1909 | the same for every event and command, measured from what is in flight once vanished Spaces are accounted for |
| Runs.CommandsDestroyNothing | crates/rovr-core/src/engine.rs:2318-2412 | focusing a workspace or sending a window to one never destroys a Space |
| Runs.RefusalReleasesUnrun | crates/rovr-core/src/engine.rs:645-675 | when the platform refuses an action of a batch, the reservation made for the batch's CreateSpace or DestroySpace is kept exactly if that action ran earlier in the batch, and otherwise it alone is released |
| Runs.RefusalKeepsOthers | crates/rovr-core/src/engine.rs:645-675 | a refused batch that holds no CreateSpace and no DestroySpace leaves every reservation alone |
| Runs.TurnKeepsSingleFlight | crates/rovr-core/src/engine.rs:1622-1909 | one turn, with or without a refusal, keeps at most one reservation and mutates topology at most once |
| Runs.SingleFlight | crates/rovr-core/src/engine.rs:527-675 | over any run with any refusals at most one Space is being created or destroyed, and each mutation starts only when every earlier one was seen through or released |
| Creation.StartReservesNow | crates/rovr-core/src/engine.rs:527-575 | a creation that starts is for a registered workspace without a Space, is anchored on a Space of its display, and is reserved against exactly the Spaces observed now |
| Creation.QueueProgress | crates/rovr-core/src/engine.rs:527-575 | a creation starts exactly when nothing is in flight and some queued request is neither moot nor behind one that has to wait; the queue shortens exactly when its front need not wait, so a front request whose display shows no Space, moot or not, holds up every display |
| Creation.BlockedMeans | crates/rovr-core/src/engine.rs:506-575 | a request has to wait if and only if the platform cannot create and its workspace is persistent, or its display shows no Space |
| Creation.AwaitedBindsOnlyNewSpaces | crates/rovr-core/src/engine.rs:739-847 | an awaited creation binds only to an ordinary Space of its display that nobody shows and that was not observed when it was requested; workspaces with a Space keep it; only a volatile workspace whose Space never came is forgotten |
| Creation.SnapshotAgesReservation | crates/rovr-core/src/engine.rs:739-847 | a complete snapshot either ends the one awaited creation or ages it; an expired one is always ended |
| Creation.TurnHoldsReservation | crates/rovr-core/src/engine.rs:739-847 | a turn that does not free the slot leaves only the same reservation in flight, aged and not expired if the turn was a complete snapshot |
| Creation.CreationCannotWedge | crates/rovr-core/src/engine.rs:739-847 | once a snapshot has seen the deadline pass, the creation slot is found free no later than the first snapshot a grace period after it, whatever else happens and whatever the platform refuses |
| LastSpace.EmptyTargetIsExpendable | crates/rovr-core/src/engine.rs:1197-1310 | the Space of an empty workspace that is destroyed is ordinary, unfocused, unoccupied, not recently left and not its display's last |
| LastSpace.OrphanIsExpendable | crates/rovr-core/src/engine.rs:1564-1620 | a Space healed away is ordinary, unfocused, unoccupied, unknown to every workspace and not its display's last |
| LastSpace.DestroysOnlyExpendable | crates/rovr-core/src/engine.rs:1622-1909 | every DestroySpace a snapshot leads to aims at a Space which that same complete snapshot shows to be ordinary, unfocused, unoccupied and one of at least two |
| LastSpace.StepKeepsSafe | crates/rovr-core/src/engine.rs:1622-1909 | destroys the platform has accepted and not yet carried out stay covered by the one reservation, and leave their display an ordinary Space |
| LastSpace.NoDisplayLosesLastSpace | crates/rovr-core/src/engine.rs:1197-1310 | over any run in which ordinary Spaces vanish only by destroys the engine issued, carried out arbitrarily late, no display loses its last ordinary Space |
| SpaceOrder.CorrectionMakesProgress | crates/rovr-core/src/engine.rs:900-944 | each correction is a legal move of two reserved Spaces, keeps the set of Spaces and strictly lowers a bounded measure |
| SpaceOrder.MoveCommutesWithProjection | crates/rovr-core/src/engine.rs:900-944 | moving a reserved Space in the native list is the same move in the list of reserved Spaces; unreserved ones in between do not matter |
| SpaceOrder.SettlesWithin2nMinus3 | crates/rovr-core/src/engine.rs:885-944 | 2n-3 corrections sort n reserved Spaces, n at least 2, whatever lies between them |
| Placement.ByPositionIsProjection | crates/rovr-core/src/engine.rs:900-920 | sorting the reserved Spaces by observed position gives the native list seen through the reservation |
| Placement.PassReleasesIffMatched | crates/rovr-core/src/engine.rs:885-944 | at every look the reservation ends exactly when every display matches, the platform cannot reorder or the deadline is reached; otherwise one correction of a mismatched display goes out exactly when the retry time has come |
| Placement.CorrectionLowersBudget | crates/rovr-core/src/engine.rs:885-944 | a correction that is carried out lowers its own display's budget and leaves every other display's budget alone |
| Placement.TickEndsOnMatch | crates/rovr-core/src/engine.rs:885-944 | on an ideal platform the reservation lives on unchanged, sends one correction once it may, and ends only on a match |
| Placement.PlacementSettles | crates/rovr-core/src/engine.rs:855-944 | for any duplicate-free reserved order, on an ideal platform a whole run makes at most 2n-3 moves per display with n reserved Spaces, and more patient passes than that bound end with every display matching it and the reservation gone |
| StripOrder.OrderLists | crates/rovr-core/src/engine.rs:855-880 | what the engine reserves, for displays listed once and owners apart, lists every Normal binding of those displays exactly once |
| StripOrder.ReservedIsNameOrder | crates/rovr-core/src/engine.rs:855-880 | on a display that shows only its own workspaces' Spaces, the part of the reservation that is desired there is those workspaces' Spaces in name order |
| StripOrder.StripsSettle | crates/rovr-core/src/engine.rs:855-944 | whatever the bindings are, what the engine reserves is sorted in at most 2n-3 moves a display, and in the end every display with only its own workspaces' Spaces shows them in the order of their names |
| Homes.BindKeepsTame | crates/rovr-core/src/engine.rs:739-847 | binding an awaited creation keeps every workspace's Space its own |
| Homes.AdoptKeepsTame | crates/rovr-core/src/engine.rs:1108-1190 | adopting a Space nobody knows keeps every workspace's Space its own, if no queued creation is for a forgotten workspace |
| Homes.OrderlyAdoptsSafely | crates/rovr-core/src/engine.rs:1108-1190 | what a caller can see in the state and the snapshot (every queued creation is for a workspace that lasts, or every Space in use is a lasting workspace's own) makes sure, once bindings settle, that nothing is adopted or no queued workspace is forgotten |
| Staying.LastingStay | crates/rovr-core/src/engine.rs:1642-1790 | a workspace whose display and own Space the snapshot shows, for which no destroy is being confirmed and no creation awaited, is still registered with that Space when bindings have settled |
| Homes.RemapKeepsTame | crates/rovr-core/src/engine.rs:1069-1106 | the positional remap, waiting workspaces held out, keeps every workspace's Space its own |
| Homes.SnapshotKeepsTame | crates/rovr-core/src/engine.rs:1622-1860 | a complete snapshot that is orderly, judged on the state and the snapshot alone, keeps the whole ownership invariant: Spaces distinct, waiting workspaces unbacked, nobody waiting twice, owned Spaces older than the awaited creation |
| Homes.TurnKeepsTame | crates/rovr-core/src/engine.rs:1622-1909 | every orderly turn, refused or not, keeps that invariant |
| Homes.HomesStayDistinct | crates/rovr-core/src/engine.rs:739-1190 | over any orderly run no two workspaces own the same Space; in particular the restore Space of a fullscreen workspace is never given to or adopted by another |
| RestoreSpace.RestoreSpaceIsNeverDestroyed | crates/rovr-core/src/engine.rs:1197-1310 | a Space some workspace will come back to is neither collected nor healed away |
| RestoreSpace.LossReturnsRestoreSpace | crates/rovr-core/src/engine.rs:946-1050 | a fullscreen workspace keeps its fullscreen Space while that and its window last; when either goes it is left, up to binding, with exactly its restore Space if that is still ordinary, else with none; while its display and restore Space are there it is not forgotten |
| OrphanRequest.RemapDistinctIff | crates/rovr-core/src/engine.rs:1069-1106 | a remap leaves owners distinct if and only if no workspace held out of it sits on a slot that the others of its display need |
| OrphanRequest.PassDistinctIff | crates/rovr-core/src/engine.rs:1622-1860 | over a whole pass from a sound state the bindings it arrives at have distinct owners if and only if the order is being held or no waiting workspace sits on a slot the others need; what follows only forgets workspaces |
| OrphanRun.OrphanRequestDoublesOwner | crates/rovr-core/src/engine.rs:527-575 | from a start on a saved state, three complete looks (a creation is queued, its display is unplugged, it is plugged back in) end with two workspaces owning one Space, however maps are walked |
| SharedFullscreen.UnsharedIffApart | crates/rovr-core/src/engine.rs:946-1050 | workspaces go on showing different fullscreen Spaces if and only if no two of them have first windows that entered the same one between two looks |
| SplitViewRun.SplitViewIsShared | crates/rovr-core/src/engine.rs:955-967 | from a start on a saved state, a look at two windows apart and one at both in a split view end with two workspaces showing that one Space |
| Start.StartsClean | crates/rovr-core/src/engine.rs:230-245 | an engine started on an empty or a saved state has nothing in flight, no bound workspace and meets the ownership invariant |
| Start.FirstLookIsOrderly | crates/rovr-core/src/engine.rs:1108-1120 | the first complete snapshot adopts nobody's Space and can bring none back, so it is always orderly |
| Start.FirstTurnKeepsTame | crates/rovr-core/src/engine.rs:1622-1909 | the first complete look, refused or not, leaves the ownership invariant in force |
| Start.OwnersStayApart | crates/rovr-core/src/engine.rs:230-411 | however the engine is started, once its first turn is a complete look, no orderly run makes two workspaces own one Space |
| Start.OneMutationAtATime | crates/rovr-core/src/engine.rs:527-675 | from any start, any run with any refusals has at most one Space being created or destroyed |
| Start.EveryDisplayKeepsOne | crates/rovr-core/src/engine.rs:1197-1310 | from any start, in any world with no destroy outstanding, no display loses its last ordinary Space |
| Workspace.KeysForLists | crates/rovr-core/src/workspace.rs:209-224 | a display's assignment order lists each of its workspaces once and nothing else |
| Workspace.KeysForAgree | crates/rovr-core/src/workspace.rs:209-224 | the order depends on names and ordinals only, not on what backs a workspace |
| Workspace.CollectKeys | crates/rovr-core/src/workspace.rs:209-224 | filtering the hash map and sorting yields that order, whatever order the map is walked in |
| Remap.RemapIsSound | crates/rovr-core/src/workspace.rs:247-322 | every Normal binding is an observed ordinary Space of the workspace's own, observed display, never a parked restore Space, and no two are equal |
| Remap.RemapSkipsNoSlot | crates/rovr-core/src/workspace.rs:247-322 | a workspace is left without a Space only if every free Space of its display went to another |
| Remap.RemapIsLocal | crates/rovr-core/src/workspace.rs:247-322 | a workspace's binding depends only on the Spaces of its own display |
| Remap.MovesAreChanges | crates/rovr-core/src/workspace.rs:252-322 | the reported moves are exactly the workspaces of observed displays whose active Space changed, each once |
| Remap.RemapTwice | crates/rovr-core/src/workspace.rs:247-322 | a second remap changes nothing when every fullscreen workspace's display is observed |
| Remap.WorkspaceRegistry.RemapAfterSnapshot | crates/rovr-core/src/workspace.rs:247-322 | the in-place loops compute that positional assignment and those moves, whatever order displays and hash maps are walked in |
| RemapAgain.RemapTwiceIffEnough | crates/rovr-core/src/workspace.rs:247-322 | for all inputs a second remap changes nothing if and only if no restore Space of a fullscreen workspace on an unobserved display comes before the last slot its display needs |
| RemapAgain.UnpluggedMovesTwice | crates/rovr-core/src/workspace.rs:252-287 | a concrete registry, after a display is unplugged, that a second remap changes |
| TreeOwnership.MovesCarryTree | crates/rovr-core/src/engine.rs:422-451 | among all the moves of a remap, a workspace's own takes its tree from its old Space to its new one, or parks it |
| TreeOwnership.ReattachServes | crates/rovr-core/src/engine.rs:1795-1803 | a parked tree goes back to its workspace's Space as soon as there is one, whatever order parked trees are walked in |
| TreeOwnership.RemapKeepsTree | crates/rovr-core/src/engine.rs:422-451 | moves and reattachment together leave every workspace the tree it owned, when every Space id has changed |
| TreeOwnership.RebindKeepsTrees | crates/rovr-core/src/engine.rs:1789-1803 | the same for the engine's whole remap stage, waiting workspaces included |
| TreeOwnership.MoveLosesIffOccupied | crates/rovr-core/src/engine.rs:422-451 | a single move loses a tree if and only if the place it goes to already holds one, and never more than that one |
| TreeLosses.RebindLosesIff | crates/rovr-core/src/engine.rs:1789-1803 | from any state, the whole remap stage (moves, then reattachment) loses no tree if and only if no move goes, in its turn, to an occupied place and no parked tree goes back, in its turn, to a Space that holds one |
| TreeLosses.RebindKeepsAllIffRoomy | crates/rovr-core/src/engine.rs:1789-1803 | with owners distinct and parked trees only of workspaces without a Space or just bound, that is if and only if, as the trees stand before the stage, none is to be put where another one is: the order of moves and reattachments does not matter |
| TreeLosses.ReturnOverwrites | crates/rovr-core/src/engine.rs:1795-1803 | a concrete sound state, as binding an awaited creation leaves it on a platform that cannot reorder, in which no move is to an occupied place and the stage still ends with a tree gone |
| TreeSurvival.VanishedKeepTrees | crates/rovr-core/src/engine.rs:1723-1788 | confirming destroys and retiring workspaces after a reset costs no remaining workspace its tree |
| TreeSurvival.TreesSurviveReset | crates/rovr-core/src/engine.rs:1642-1849 | after a topology reset onto all-new Spaces, with no window gone native fullscreen out of a workspace's Space, every workspace the pass keeps owns the tree it owned: on the Space it got, or parked exactly while it has none |
| StrandedTree.EnteredTreeIsLeftBehind | crates/rovr-core/src/engine.rs:946-1050 | if such a window has, its workspace goes through the same reset in fullscreen, with its tree left on the Space it had, which is gone |
| StrandedTree.LeavingKeepsTreeIff | crates/rovr-core/src/engine.rs:1005-1050 | a workspace that leaves fullscreen keeps its tree if and only if its restore Space is an ordinary observed one |
| ParkedTrees.ParkedTreeReturns | crates/rovr-core/src/engine.rs:1622-1860 | over a whole pass: a tree parked for a workspace the snapshot gives no cause to forget is, at the end, on the Space the workspace shows and parked no longer, whether an awaited creation or the remap bound it and whether or not the order is being held, or still parked while it shows none |
| OneTreeRuns.OneTreeAlways | crates/rovr-core/src/engine.rs:1795-1803 | from any start, over any run with any refusals whose looks walk all there is, a tree is parked only for a workspace that has no Space |
| Persistence.RestartKeepsOwnership | crates/rovr-core/src/engine.rs:336-411 | saving and loading, in whatever order the maps are walked, keeps every workspace, its name, display, order and kind and the tree it owned, and drops native ids and positions |
| Persistence.RestartKeepsStrays | crates/rovr-core/src/engine.rs:336-411 | a tree on a Space no workspace owns stays on that Space, and no other tree is on a Space afterwards |
| Persistence.TreesSurviveRestart | crates/rovr-core/src/engine.rs:336-411 | save, load and a first snapshot with all-new Space ids, native fullscreen Spaces included, leave every kept workspace of a display still there the tree it owned |
| Engine.Engine.RemoveWorkspace | crates/rovr-core/src/engine.rs:682-692 | forgetting a workspace drops its entry, its Space's tree, its parked tree, its grace and every queued intent for it, and nothing else |
| Engine.Engine.RemoveEach | crates/rovr-core/src/engine.rs:682-692 | forgetting several one after another, in any order, is forgetting them together |
| Engine.Engine.ClearStaleBacking | crates/rovr-core/src/engine.rs:697-712 | clearing a dead binding parks the tree under the workspace's key, as the specification stage does |
| Engine.Engine.ConfirmGone | crates/rovr-core/src/engine.rs:1723-1740 | destroy reservations of vanished Spaces end, and their workspaces are forgotten |
| Engine.Engine.RetireVanished | crates/rovr-core/src/engine.rs:1746-1763 | volatile workspaces whose Space vanished are forgotten, in any order of the hash map |
| Engine.Engine.ParkAllVanished | crates/rovr-core/src/engine.rs:1764-1788 | persistent ones are parked and a new Space is queued for each once, for the walk actually made, which meets every workspace |
| Engine.Engine.SortStrips | crates/rovr-core/src/engine.rs:855-870 | every observed display is listed once, left to right and top to bottom by the rounded corner of its frame |
| Engine.Engine.ReserveLogicalOrder | crates/rovr-core/src/engine.rs:855-880 | the reservation made is the logical order of all Normal bindings, strip by strip over the sorted displays, with its deadline |
| Engine.Engine.ReconcileFullscreenSpaces | crates/rovr-core/src/engine.rs:946-1050 | the loop over workspaces in any order yields the fullscreen substitution of every workspace |
| Engine.Engine.NoteWindows | crates/rovr-core/src/engine.rs:1057-1067 | where windows were last seen is brought up to date and bounded by its time to live |
| Engine.Engine.BindAwaitedSpaces | crates/rovr-core/src/engine.rs:739-847 | the awaited creations are drained and each released, dropped, bound to its first fit Space, or kept |
| Engine.Engine.ObserveExternalSpaces | crates/rovr-core/src/engine.rs:1108-1190 | Spaces made by others are set aside, graced, and adopted in slot order under the next free number when used |
| Engine.Engine.ReconcilePlacementNow | crates/rovr-core/src/engine.rs:885-944 | one look at the reservation does what the placement stage specifies |
| Engine.Engine.RemapSlotsNow | crates/rovr-core/src/engine.rs:1069-1106 | holding waiting workspaces out, remapping and putting them back does what the remap stage specifies |
| Engine.Engine.ApplyMoves | crates/rovr-core/src/engine.rs:422-451 | the loop over moves carries trees along as specified |
| Engine.Engine.ReattachAll | crates/rovr-core/src/engine.rs:1795-1803 | parked trees are reattached for whatever walk of the map is made, and that walk meets every parked tree |
| Engine.Engine.DestroyEmptyNow | crates/rovr-core/src/engine.rs:1197-1310 | the stage `Collecting.WhoGoes` and `Collecting.WhatGoes` are about, whatever order the map is walked in |
| Engine.Engine.FulfillQueuesNow | crates/rovr-core/src/engine.rs:1320-1374 | the front focus and move intents are fulfilled, kept or dropped as specified |
| Engine.Engine.RequestMissingNow | crates/rovr-core/src/engine.rs:1825-1843 | persistent workspaces without a Space are queued display by display, each once |
| Engine.Engine.CreationAnchor | crates/rovr-core/src/engine.rs:506-525 | a display's anchor is its focused Space, else its first, in slot order |
| Engine.Engine.TryStartNext | crates/rovr-core/src/engine.rs:527-575 | moot requests are dropped and the next one started only when nothing else is in flight |
| Engine.Engine.HealWhenIdle | crates/rovr-core/src/engine.rs:1844-1849 | an orphan Space is healed away only when the pass does nothing else |
| Engine.Engine.FindOrphan | crates/rovr-core/src/engine.rs:1564-1620 | the last orphan by slot is the one chosen, whatever order Spaces are walked in |
| Engine.Engine.SyncConfiguration | crates/rovr-core/src/engine.rs:1705-1718 | templates are instantiated on the observed displays when the display set changed |
| Engine.Engine.VoidAll | crates/rovr-core/src/engine.rs:1661-1700 | a topology reset re-queues creations in flight, in front and in order |
| Engine.Engine.ApplySnapshot | crates/rovr-core/src/engine.rs:1622-1909 | a whole snapshot, whatever order the hash maps yield their entries in, ends in the state and answers with the actions of the specified step for that order, and the walks it made list every display once and in strip order and meet every workspace and parked tree there is |
| Engine.Engine.RequestWorkspaceCreation | crates/rovr-core/src/engine.rs:577-591 | a workspace is registered, queued once and started if possible |
| Engine.Engine.FocusWorkspaceNow | crates/rovr-core/src/engine.rs:2318-2344 | the focus command does what its specification says in every branch |
| Engine.Engine.MoveToWorkspaceNow | crates/rovr-core/src/engine.rs:2346-2412 | the move-to-workspace command does what its specification says in every branch |
| Engine.Engine.NoteFailed | crates/rovr-core/src/engine.rs:645-675 | exactly the reservations of actions that never ran are released |
| Engine.Engine.ExecuteTracked | crates/rovr-daemon/src/main.rs:1791-1802 | what ran and what is released split the batch at the refused action; a batch that succeeds changes no reservation |
| Lifecycle.MaxNumber | crates/rovr-core/src/engine.rs:1108-1190 | the highest number any workspace of a display goes by, at most the largest 32-bit value |
| Lifecycle.FreeNumber | crates/rovr-core/src/engine.rs:1108-1190 | the number it finds is the first one from there up that is unused on the display; it finds none only if all of them are used |
| Lifecycle.Anchor | crates/rovr-core/src/engine.rs:506-525 | an anchor is an observed Space of the display; there is none exactly when the display shows no Space |
| Lifecycle.Pending | crates/rovr-core/src/engine.rs:527-575 | only moot requests are dropped, only from the front, and the first one left is startable or has to wait |
| Lifecycle.NextHeal | crates/rovr-core/src/engine.rs:1564-1620 | a heal target is an observed orphan, found only when nothing is in flight or queued |
| Spared.DestroysSpare | crates/rovr-core/src/engine.rs:1197-1310 | whatever Space a snapshot leads the engine to destroy, in an orderly run, no persistent workspace and none showing a fullscreen Space holds it, and nobody is coming back to it |
| Spared.ProtectedStay | crates/rovr-core/src/engine.rs:1642-1849 | over a whole pass: a workspace that is persistent, queued for a focus or a window, or in grace, and that the snapshot gives no cause to forget, is still registered, as persistent as before, and no destroy has been begun for a persistent one |
| Spared.ProtectedKeepSpaces | crates/rovr-core/src/engine.rs:1220-1263 | and no Space it holds after the pass is destroyed by it |
| PersistentRuns.PersistentNeverForgotten | crates/rovr-core/src/engine.rs:1225-1232 | over any run with any refusals whose complete looks show its display, a workspace configured persistent is never forgotten and stays so |
| PersistentRuns.PersistentNeverDestroyed | crates/rovr-core/src/engine.rs:1225-1232 | over any such orderly run no turn asks for a Space of its to be destroyed |
| PersistentRuns.ConfiguredIsPermanent | crates/rovr-core/src/workspace.rs:120-178 | the first look at a set of displays leaves every persistent template a workspace of that kind on every display it aims at |
| PersistentRuns.PersistentFromStart | crates/rovr-core/src/engine.rs:230-411 | so from any start whose first turn is a complete look: what a persistent template puts on an observed display is there after every such run, its Spaces never destroyed if the run is orderly |
| Collecting.WhoGoes | crates/rovr-core/src/engine.rs:1220-1290 | between settled bindings and the end of a pass exactly these are forgotten, given the means to destroy and nothing in flight: volatile workspaces nobody asks for, still on the ordinary Space they had, with no focus, no window and none seen there in ten seconds, when that Space is the last of its display |
| Collecting.WhatGoes | crates/rovr-core/src/engine.rs:1288-1310 | of such workspaces whose display shows another ordinary Space, the first by the text of its key has its Space destroyed, and it alone; without one, no Space any workspace knows is destroyed |
| Collecting.HealsLastLeftover | crates/rovr-core/src/engine.rs:1564-1620 | a pass with nothing else to do, nothing in flight or queued and the means to destroy heals away the last Space, in slot order, that is ordinary, deserted, unknown to everybody, past its grace and not its display's only one, if there is one; every other pass heals none |
| Collecting.LookKeepsGrace | crates/rovr-core/src/engine.rs:1108-1190 | a look gives three seconds to Spaces it sets aside anew and neither extends nor cuts short the time others have |
| Collecting.TimeRunsOut | crates/rovr-core/src/engine.rs:1108-1190 | a Space set aside that is still there, in a topology that was not replaced, keeps the very time it was given unless some workspace comes to show it |
| Collecting.StrangersGetTheirTime | crates/rovr-core/src/engine.rs:1564-1620 | over a whole orderly pass a Space nobody knows is destroyed only if it had been set aside before and its time is over |
| Adoption.AdoptedByPlace | crates/rovr-core/src/engine.rs:1108-1190 | every Space no workspace knows and somebody uses becomes a volatile dynamic workspace of its display, named with the numbers after the display's highest in slot order |
| Adoption.AdoptsOnlyUsed | crates/rovr-core/src/engine.rs:1108-1190 | nobody else is registered by that and nobody changed, and nothing is adopted before the first look or while a creation is awaited |
| Filing.AlwaysFiled | crates/rovr-core/src/engine.rs:717-737 | from any start on a saved registry in which every workspace goes by the name and display it is filed under, so it is over every run with any refusals |
| Memory.LookRemembers | crates/rovr-core/src/engine.rs:1057-1067 | after a complete look a window seen on a Space is remembered there from now; any other memory stays as it was, for ten seconds once its window is gone |
| Memory.JustLeftIsSpared | crates/rovr-core/src/engine.rs:1262-1287 | a workspace's Space on which a window was last seen less than ten seconds ago is not destroyed |
| Memory.FullscreenFound | crates/rovr-core/src/engine.rs:946-1050 | a workspace showing its own Space shows, after a complete look, the fullscreen Space of the first window that went there from its Space, by the last look or the memory, and that nobody shows, with its own Space to come back to; without one it goes on showing its own |
| Vanishing.ReplacementForgetsNobody | crates/rovr-core/src/engine.rs:1642-1763 | a topology in which no ordinary Space seen before is left and others have come costs no workspace of an observed display its registration |
| Vanishing.VanishedGoesOrAsks | crates/rovr-core/src/engine.rs:1743-1788 | in any other, a workspace whose own Space is gone is forgotten if volatile, and if persistent stays without a Space and has one queued to be created |
| Vanishing.VanishedTreeIsParked | crates/rovr-core/src/engine.rs:1764-1788 | the tree of a persistent workspace whose Space is gone is parked under its name, for the Space asked for in its place |
| Vanishing.DestroyedIsForgotten | crates/rovr-core/src/engine.rs:1727-1740 | once the Space a workspace was condemned with is seen to be gone, the workspace is forgotten with whatever was queued for it |
| Arrivals.ReturningArrives | crates/rovr-core/src/engine.rs:1005-1050 | a workspace whose fullscreen window or Space is gone is, once bindings settle, in grace for two seconds with the strip being put back in order |
| Arrivals.BindingArrives | crates/rovr-core/src/engine.rs:800-847 | and so is one bound to the Space created for it |
| Arrivals.CreationDecided | crates/rovr-core/src/engine.rs:739-847 | a look decides the creation in flight exactly: given up ten seconds after it became uncertain, along with a dynamic workspace still without a Space; dropped when its workspace is gone or has a Space; bound to the first Space, in slot order, that is new, ordinary, on its display and shown by nobody; else kept, uncertain once past its deadline |
| Intents.LookAnswersOnlyQueued | crates/rovr-core/src/engine.rs:1320-1374 | a look focuses and moves only what was queued before it, to the Space the workspace shows after it |
| Intents.FrontFocusAnswered | crates/rovr-core/src/engine.rs:1320-1352 | the focus in front, for a workspace the snapshot gives no cause to forget, is answered once, with the Space the workspace shows, exactly when it shows one and the strip is not being put in order; else it stays in front |
| Intents.FrontMoveAnswered | crates/rovr-core/src/engine.rs:1353-1374 | the same for a window on its way to a workspace, if the window is still there |
| Intents.FocusAnsweredOrQueued | crates/rovr-core/src/engine.rs:2318-2344 | a focus command is answered at once, with the Space its workspace shows, exactly when that Space is observed and the strip settled; else it is queued |
| Intents.SendAnsweredOrQueued | crates/rovr-core/src/engine.rs:2346-2412 | a window sent to a workspace goes there at once under the same condition, is refused by a fullscreen Space, and is queued otherwise |
| Intents.IntentsAreNotLost | crates/rovr-core/src/engine.rs:1320-1374 | over any run with any refusals that gives no cause to forget the workspace, what was asked of it stays queued until some turn answers it with the Space the workspace shows then |
| Requests.NobodyMissesOut | crates/rovr-core/src/engine.rs:1825-1843 | after a pass every persistent workspace of an observed display shows a Space or has one queued or in flight |
| Requests.FocusAsksForSpace | crates/rovr-core/src/engine.rs:577-591 | a focus command whose workspace shows no observed Space leaves it without one and with one queued or in flight, if its display shows any Space to start from |
| Requests.SendAsksForSpace | crates/rovr-core/src/engine.rs:577-591 | and so does sending it a window |
| Requests.RequestGoesLast | crates/rovr-core/src/engine.rs:577-591 | a command adds its request at the end of the queue; requests are taken from the front only |
| Requests.StartServesFront | crates/rovr-core/src/engine.rs:527-575 | a creation started is for the last request taken from the front |
| Requests.AnchoredAtFocus | crates/rovr-core/src/engine.rs:506-525 | a new Space is put beside the first focused Space of its display by native order, and beside the first of all when none is focused |
| Configuration.WhoIsRegistered | crates/rovr-core/src/workspace.rs:120-178 | when the set of displays has changed, registered afterwards are exactly the workspaces of observed displays that were registered or that a template puts there |
| Configuration.ConfiguredInOrder | crates/rovr-core/src/workspace.rs:209-224 | names that are not numbers, brought to a display by a look, stand in its assignment order in the order they are configured in |
| Configuration.NewNameGoesLast | crates/rovr-core/src/engine.rs:717-737 | a name first used by a command is a volatile dynamic workspace after all of its display's other names that are not numbers |
| Configuration.StripsLeftToRight | crates/rovr-core/src/engine.rs:855-870 | of two displays, one that begins more than a point further left, or as far left and more than a point further up, has its strip reserved first |
| NameOrder.EarlierNameEarlierSpace | crates/rovr-core/src/workspace.rs:209-322 | whenever the remap gives a Space to the second of two names of a display, the first has one further left by observed position and id: smaller numbers before larger, numbers before other names, those in the order of their ordinals |
| NameOrder.StripsEndByName | crates/rovr-core/src/engine.rs:855-944 | and the strip a reservation settles to has their Spaces in that order |
| Events.ForgettingLeavesNothing | crates/rovr-core/src/engine.rs:682-692 | of a forgotten workspace no name, parked tree, grace or intent is left, nor the tree on the Space it showed |
| Events.ForgettingLeavesAlone | crates/rovr-core/src/engine.rs:682-692 | every other workspace keeps its entry, parked tree, grace and intents |
| Events.ForgettingKeepsTrees | crates/rovr-core/src/engine.rs:682-692 | and Spaces nobody forgotten showed keep their trees |
| Events.GoneForgetsItsWorkspace | crates/rovr-core/src/engine.rs:1856-1866 | an event that says a Space is gone takes it out of view and forgets exactly the workspace it was condemned with, if any |
| Events.GoneIsOutOfView | crates/rovr-core/src/engine.rs:1851-1874 | window and display events take what is gone out of view and nothing else; a lost display or a wake makes observation stale |
| Events.CommandsKeepTree | crates/rovr-core/src/engine.rs:697-712 | a focus or send command for a workspace whose Space is out of view parks the tree it had there and touches no other tree |
| Events.LooksAreTakenIn | crates/rovr-core/src/engine.rs:2714-2756 | a complete look is what is in view from then on and makes observation fresh; a partial one adds what it shows and changes nothing else |
| BspSync.SyncedLeaves | crates/rovr-core/src/bsp.rs:548-566 | leaf order after a sync: surviving leaves in their old order, then new windows ascending; the leaves are exactly the given windows and stay distinct |
| BspSync.SyncedKeepsPartings | crates/rovr-core/src/bsp.rs:548-566 | two windows that both survive still part at a split with the same axis, ratio and sides |
| BspSync.SyncedUntouched | crates/rovr-core/src/bsp.rs:548-566 | the tree is left alone if and only if its leaves already are the given windows |
| BspSync.SyncedTwice | crates/rovr-core/src/bsp.rs:548-566 | syncing twice with the same windows is syncing once |
| BspSync.PruneCompose | crates/rovr-core/src/bsp.rs:53-83 | removing windows one after another is removing them together |
| BspSync.PruneLeaves | crates/rovr-core/src/bsp.rs:53-83 | removal keeps the order of the remaining leaves |
| BspSync.InsertLeaves | crates/rovr-core/src/bsp.rs:287-318 | insertion appends the window to the leaf order |
| BspGrowth.SyncedHalves | crates/rovr-core/src/bsp.rs:287-318 | every window new to a tree parts, after a sync, from the leaf before it at an even split, on the right or below, cut upright exactly at even depth |
| BspGrowth.GrownSpirals | crates/rovr-core/src/bsp.rs:548-566 | a tree grown by syncs from nothing places its windows as a spiral: each takes half of what is left, right and below in turn |
| BspGrowth.WarpedHalves | crates/rovr-core/src/bsp.rs:352-436 | a warped window parts from its target at an even split, on the side asked for, cut upright exactly at even depth; all others part as before |
| BspGrowth.BalanceEvensInPlace | crates/rovr-core/src/bsp.rs:438-442 | balancing changes no way down the tree, no leaf and no axis, and makes every ratio one half |
| Geometry.SplitFits | crates/rovr-core/src/bsp.rs:197-236 | when a side holds the gap, the two parts and the gap make it up exactly and the first part is at least a tenth of what is shared |
| Geometry.SplitOverflows | crates/rovr-core/src/bsp.rs:200-212 | when it does not, both parts are empty and the second starts outside the area |
| BspGeometry.PlacementsListLeaves | crates/rovr-core/src/bsp.rs:132-146 | placements list the leaves in order, one each |
| BspGeometry.FitsTiles | crates/rovr-core/src/bsp.rs:132-236 | a tree whose splits have room for their gaps puts every frame, non-negative, inside the area, any two at least the gap apart, and frames plus one strip per split add up to the area |
| BspGeometry.TilesIffEnough | crates/rovr-core/src/bsp.rs:132-236 | all trees of height at most d tile an area if and only if both its sides are at least gap*(10^d-1)/9 |
| BspResize.PlacementIsFrame | crates/rovr-core/src/bsp.rs:132-146 | the placement list gives each leaf the frame reached by walking down to it |
| BspResize.ResizeFindsNearest | crates/rovr-core/src/bsp.rs:148-194 | the resize re-sets the deepest split above the window whose boundary is that edge and that has room, to the clamped ratio, or changes nothing when there is none |
| BspResize.ResizeMovesNearest | crates/rovr-core/src/bsp.rs:148-194 | a resize reports a change if and only if there is such a split |
| BspResize.WithRatioElsewhere | crates/rovr-core/src/bsp.rs:132-236 | frames outside a split's subtree do not depend on its ratio |
| BspResize.ResizeIsLocal | crates/rovr-core/src/bsp.rs:148-194 | a resize keeps the leaf order and the ratio range and moves no frame outside the split's subtree |
| BspResize.ResizeMovesEdge | crates/rovr-core/src/bsp.rs:148-236 | with room on the window's path, its edge moves by exactly delta if and only if the clamp does not bind, and otherwise less far in the same direction |
| BspAlgebra.SwapPlacements | crates/rovr-core/src/bsp.rs:85-104 | swapping exchanges the two windows in the leaf order and in the placements and changes no frame |
| BspAlgebra.SwapExchangesFrames | crates/rovr-core/src/bsp.rs:85-104 | each of the two gets the other's frame and everybody else keeps theirs |
| BspAlgebra.SwapTwice | crates/rovr-core/src/bsp.rs:85-104 | swap is an involution |
| BspAlgebra.WarpedLeaves | crates/rovr-core/src/bsp.rs:352-436 | warping gives the leaf order without the window, with it put right before or after the target |
| BspAlgebra.RotateTransposes | crates/rovr-core/src/bsp.rs:444-453 | placing the rotated tree in the transposed area transposes every frame |
| BspAlgebra.MirrorLeaves | crates/rovr-core/src/bsp.rs:459-470 | mirroring reverses the leaf order |
| BspAlgebra.MirrorTwice | crates/rovr-core/src/bsp.rs:459-470 | mirror is an involution |
| BspAlgebra.MirrorTurnsIffHalves | crates/rovr-core/src/bsp.rs:459-470 | mirroring is a half turn of the whole picture if and only if every ratio is one half, on a tree with room everywhere |
| Tree.BspTree.Insert | crates/rovr-core/src/bsp.rs:272-285 | a window joins at the end of the order, as `BspGrowth.SyncedHalves` says, exactly if it was not there |
| Tree.BspTree.Remove | crates/rovr-core/src/bsp.rs:320-337 | the window leaves the order and the other splits survive |
| Tree.BspTree.Swap | crates/rovr-core/src/bsp.rs:339-349 | succeeds exactly for two different known windows; else nothing changes |
| Tree.BspTree.Warp | crates/rovr-core/src/bsp.rs:352-371 | succeeds exactly when the target is another, known window, and puts the window right beside it |
| Tree.BspTree.Balance | crates/rovr-core/src/bsp.rs:438-442 | every ratio becomes one half and the order stays |
| Tree.BspTree.Rotate | crates/rovr-core/src/bsp.rs:444-453 | every axis turns and the order stays |
| Tree.BspTree.Mirror | crates/rovr-core/src/bsp.rs:455-470 | the order is reversed |
| Tree.BspTree.ResizeEdge | crates/rovr-core/src/bsp.rs:473-484 | one boundary at most moves and the order stays |
| Tree.BspTree.SyncWithWindows | crates/rovr-core/src/bsp.rs:548-566 | the loops compute the synced tree whatever order the hash set yields its windows in |
| StatelessLayout.HalvedIsSplit | crates/rovr-layout/src/lib.rs:162-198 | the stateless halving is the persistent split at ratio one half, fitting or not |
| StatelessLayout.BspIsBalancedTree | crates/rovr-layout/src/lib.rs:144-198 | for every area and gap the stateless bsp layout is the placements of the balanced, axis-alternating, even tree |
| StatelessLayout.BspIsEvenlyDivided | crates/rovr-layout/src/lib.rs:144-160 | every tree with alternating axes, even ratios and left sides as large as the right or one window larger is placed as the stateless bsp layout places its windows, and is the only such tree over them |
| StatelessLayout.BalancedIsEvenlyDivided | crates/rovr-layout/src/lib.rs:144-160 | and every list of windows has such a tree |
| StatelessLayout.ColumnsPartition | crates/rovr-layout/src/lib.rs:84-103 | columns place each window once in order and partition the area if and only if the gaps fit its width |
| StatelessLayout.MasterPartition | crates/rovr-layout/src/lib.rs:105-142 | for every area and gap, master and stack place each window once and, with at least two windows, partition the area if and only if the gap fits its width and the stack's gaps fit its height |
| StatelessLayout.WhatKindsDo | crates/rovr-layout/src/lib.rs:29-82 | unsound spacing, then an unsound ratio, then an area with no room refuse the request; else stack and monocle give every window the whole area within the padding, float none, bsp the balanced tree cut upright first |
| PluginValidation.ValidatePlacements | crates/rovr-layout-plugin/src/lib.rs:54-106 | accepts exactly the acceptable answers, else names the first fault met in order |
| PluginValidation.AcceptedIsPermutation | crates/rovr-layout-plugin/src/lib.rs:54-106 | acceptance means the request had no duplicates and the placements are a permutation of it |
| PluginValidation.AcceptedStaysNear | crates/rovr-layout-plugin/src/lib.rs:54-106 | an accepted frame is finite, not empty, at most twice the area and a point in size, and reaches past no side of the area by more |
| PluginValidation.NearIsAccepted | crates/rovr-layout-plugin/src/lib.rs:54-106 | and every answer that is a permutation of the request with such frames is accepted |
| Policy.AsideIsNotArranged | crates/rovr-core/src/layout.rs:22-26 | an unmanaged, minimized, native fullscreen, floating, scratchpad or closing window, or one under a rule to leave alone or float, gets no frame, and unless it is closing is in no tree the pass brings in line |
| Policy.ManagedIsTiled | crates/rovr-core/src/layout.rs:239-411 | a managed visible window no rule is about and the user has not put aside, on an ordinary Space with room and the tree layout, is a leaf of that Space's tree and gets the frame the tree gives it within screen padding and padding |
| Policy.InsetsDecide | crates/rovr-core/src/layout.rs:200-224 | with insets on, such a window's frame is its place in the tree over what screen edges and padding leave of the display, a gap apart; with insets off, over the whole display and without gaps |
| Policy.RulesDecide | crates/rovr-core/src/layout.rs:93-119 | a window is wanted on the Space that the first rule which would send it anywhere sends it to, if that Space is there, and nowhere else |
| LayoutChoice.SentIsLaidOut | crates/rovr-core/src/layout.rs:239-314 | and it is laid out there |
| LayoutChoice.OwnEntryDecides | crates/rovr-core/src/layout.rs:124-145 | the first configuration entry with the name of the workspace a Space shows decides its layout, and its plugin if it names one |
| LayoutChoice.LabelDecides | crates/rovr-core/src/layout.rs:124-145 | failing that the entry with its native label decides the layout, but not the plugin |
| LayoutChoice.DefaultDecides | crates/rovr-core/src/layout.rs:124-145 | and failing both the general settings do |
| LayoutChoice.PluginIsObeyed | crates/rovr-core/src/layout.rs:316-361 | a plugin whose whole answer passes the gate places every window of the Space exactly where it says |
| LayoutChoice.StatelessIsComputed | crates/rovr-core/src/layout.rs:390-411 | a layout that keeps no tree arranges the Space's windows in ascending order within the screen padding, a master taking half |
| LayoutChoice.PassKeepsTheRest | crates/rovr-core/src/layout.rs:191-222 | a pass changes neither what floats nor what is to be focused, and leaves the frame of a window its layout has no place for |
| ApplyLayout.FailingPluginIsNoPlugin | crates/rovr-core/src/layout.rs:316-411 | on each Space where the plugin's answer fails or is rejected, targets and tree are exactly those with no plugins at all, whatever plugins do on other Spaces |
| ApplyLayout.WindowOrderIsIrrelevant | crates/rovr-core/src/layout.rs:191-416 | on each Space where no plugin's answer is used, targets and tree do not depend on the order the window map is walked in |
| LayoutPass.PlacesOwnWindows | crates/rovr-core/src/layout.rs:316-411 | a Space's placements are only of windows laid out on it or closing |
| LayoutPass.LayoutState.FillBuckets | crates/rovr-core/src/layout.rs:223-314 | the window loop decides every target but its frame and lists each Space's windows in the order met; which those are say `Policy` and `LayoutChoice` |
| LayoutPass.LayoutState.AskPlugin | crates/rovr-core/src/layout.rs:317-361 | a plugin's answer is used only whole and only if it passes the gate |
| LayoutPass.LayoutState.LayOutSpace | crates/rovr-core/src/layout.rs:316-411 | one Space gets its plugin's, its tree's or a stateless layout, and only a tree that is used is synced |
| LayoutPass.LayoutState.Run | crates/rovr-core/src/layout.rs:191-416 | the whole in-place pass computes the specified targets and trees for whatever order the maps are walked in |
| LayoutPass.LayoutState.ResizeWindowEdge | crates/rovr-core/src/engine.rs:2621-2686 | a tiled window's tree is resized and relaid; any other window is nudged, refused as too small, or unknown |
| LayoutPass.NudgeMovesOneEdge | crates/rovr-core/src/engine.rs:2662-2685 | a window no tree resizes has exactly the named edge moved out by delta, and is refused when that leaves it under forty points either way |
| LayoutPass.ResizeStaysPut | crates/rovr-core/src/engine.rs:2609-2686 | for an unchanged window set under the tree layout with no plugin, the next layout pass writes, for every placed window that is not closing, exactly the frame the resize answered with, and keeps the resized tree |
| Reconcile.ReconcileWindows | crates/rovr-core/src/reconcile.rs:7-49 | the loop over sorted ids yields the specified difference |
| Reconcile.DifferenceIsWhatIsAsked | crates/rovr-core/src/reconcile.rs:7-49 | with observation fresh the actions are exactly: refresh for windows not seen afresh, a move for each not on its target Space, a frame for each off by more than three quarters of a point somewhere, a focus for each that lacks it |
| Reconcile.NoActionIffMet | crates/rovr-core/src/reconcile.rs:7-49 | there is nothing to do if and only if observation is fresh and every target is met |
| Reconcile.ObeySettles | crates/rovr-core/src/reconcile.rs:7-49 | carrying the actions out faithfully puts every window with a target where it belongs and touches no other |
| Reconcile.ObeyedIsMet | crates/rovr-core/src/reconcile.rs:7-49 | after that there is nothing left to do, focus aside |
| Fixpoint.WantedAgain | crates/rovr-core/src/layout.rs:93-119 | a window moved to where rules want it is still wanted there |
| Fixpoint.BucketAgain | crates/rovr-core/src/layout.rs:239-314 | and is laid out on the same Space as before |
| Fixpoint.RoundReachesFixpoint | crates/rovr-core/src/layout.rs:191-416 | one round of layout, difference and faithful execution: the next round sets the same targets, leaves every tree alone and emits no action, for any walk of the maps |
| SpaceCursor.SpaceCursors.FocusSpaceStep | crates/rovr-core/src/engine.rs:2157-2224 | a step moves the cursor by the wrapped delta and reports the signed displacement, or refuses for the stated reasons without moving |
| SpaceCursor.SpaceCursors.Reconcile | crates/rovr-core/src/engine.rs:2247-2271 | a snapshot settles cursors it agrees with, overrides settled ones, keeps pending ones, and drops those off their strip |
| SpaceCursor.PressGoesNext | crates/rovr-core/src/engine.rs:2157-2224 | a step goes to the next or previous Space of the display by native position, around the ends, from the Space its cursor names or, without one, from the first focused one, and from the first where that is missing |
| SpaceCursor.WhyNoStep | crates/rovr-core/src/engine.rs:2157-2206 | a step is refused exactly for its size, for a display without Spaces or for one with a single Space, and a refused one leaves every cursor alone |
| SpaceCursor.SnapshotDecidesStart | crates/rovr-core/src/engine.rs:2244-2271 | after a snapshot a step starts at a pending cursor whose Space is still on the display, and otherwise at the Space shown focused there |
| SpaceCursor.PressMoves | crates/rovr-core/src/engine.rs:2157-2224 | a press moves the standing place by its delta around the ends and emits exactly the change of place |
| SpaceCursor.StepsAddUp | crates/rovr-core/src/engine.rs:2157-2271 | over any mix of presses, snapshots, dispatched, cancelled and abandoned focus commands navigation ends at start plus all pressed deltas plus what the rest moved it by, modulo n, and the emitted displacements add up to exactly the presses' share of the change of place |
| SpaceCursor.LaggingKeepsSteps | crates/rovr-core/src/engine.rs:2157-2271 | while no snapshot shows the focus where navigation stands, presses and stale snapshots alone lose no step: it ends at start plus all deltas modulo n |
| SpaceCursor.DispatchHolds | crates/rovr-core/src/engine.rs:2226-2271 | a Space the platform was told to focus is where the next step starts from until a snapshot shows it |
| SpaceCursor.YieldsToFocus | crates/rovr-core/src/engine.rs:2232-2271 | once pending steps are abandoned, or a focus command on the strip is cancelled, the next snapshot that shows the focus decides where navigation stands |
| BoundedWorker.WorkerKeepsTokens | crates/rovr-platform/src/bounded_worker.rs:70-95 | the worker neither invents, copies nor loses a job or result, short of dying with its job |
| BoundedWorker.WorkerKeepsPayload | crates/rovr-platform/src/bounded_worker.rs:70-95 | what it carries stays the submitted job's epoch and value |
| BoundedWorker.BoundedWorker.constructor | crates/rovr-platform/src/bounded_worker.rs:70-95 | a new worker is idle, alive and not wedged |
| BoundedWorker.BoundedWorker.ReapFinished | crates/rovr-platform/src/bounded_worker.rs:175-188 | a finished result is taken off and clears the in-flight and wedged marks; death of the worker is reported |
| BoundedWorker.BoundedWorker.Submit | crates/rovr-platform/src/bounded_worker.rs:104-121 | accepted exactly when the worker lives and nothing is outstanding once a late result is reaped; the capacity-one channel is never found full |
| BoundedWorker.BoundedWorker.Poll | crates/rovr-platform/src/bounded_worker.rs:125-139 | a value is handed out only for the epoch that produced it; polling another epoch throws a waiting result away |
| BoundedWorker.BoundedWorker.WaitUntil | crates/rovr-platform/src/bounded_worker.rs:142-166 | for the current epoch the wait ends with the job's value exactly when a result is found before a reading past the deadline or arrives by the end of the blocking receive, and times out exactly otherwise, marking the wedge and keeping the job in flight |
| BoundedWorker.BoundedWorker.IsIdle | crates/rovr-platform/src/bounded_worker.rs:168-173 | idle means nothing is queued, running or waiting to be read |
| BoundedWorker.BoundedWorker.Run | crates/rovr-platform/src/bounded_worker.rs:197-200 | a run is refused exactly when a job is outstanding, returns its own job's value exactly when that comes in time, and times out with the job still in flight exactly otherwise |
| BoundedWorker.Serve | crates/rovr-platform/src/bounded_worker.rs:104-173 | whatever operation hands a value out hands out the one promised under the epoch asked for |
| BoundedWorker.Session | crates/rovr-platform/src/bounded_worker.rs:70-200 | over any sequence of operations under any interleaving, in-flight equals one token and every value handed out is that of the last job accepted under its epoch |

## Left out

- Tree.BspTree: holds the tree as a value that each command replaces; node-by-node mutation through references and the boolean results of inner recursive calls are not modelled.
- Engine.Engine: reads the clock once for each event or command, where the code reads it in each stage; the layout pass and the difference that follow every event are the separate objects `LayoutPass.LayoutState` and `Reconcile`.
- Homes.HomesStayDistinct: one direction only over runs, under a condition on states and snapshots; the exact condition is given for one pass, `OrphanRequest.PassDistinctIff`, in terms of what the pass finds once bindings have settled.
- TreeSurvival.TreesSurviveReset: says nothing about workspaces that were native fullscreen before the reset; by the meaning of a reset no ordinary Space survives it by id.
- RestoreSpace.LossReturnsRestoreSpace: up to where bindings settle; a positional remap later in the same pass may hand the workspace another Space of its display.
- ApplyLayout.WindowOrderIsIrrelevant: a plugin whose answer is used is given its windows in hash-map order, so its answer may depend on that order; the result is for the Spaces on which none is used.
- Fixpoint.RoundReachesFixpoint: leaves focus targets out, since focusing one window unfocuses another.
- BspResize.ResizeMovesEdge: exact arithmetic; the rounding of 64-bit floats is not modelled.
- Lifecycle.BindOne: an awaited creation always names its display; the code's optional display is not modelled.
- Events.LooksAreTakenIn: windows come stamped with the current observation generation, which the code does as it takes a snapshot in.
- Adoption.AdoptedByPlace: for states in which numbers are left; when they run out the code adopts nobody, as `Lifecycle.FreeNumber` says.
- Moving a window to a Space not yet created (`move_window_to_new_space` and its queue) is not modelled.
- `space create`, `space destroy` and `space move` emit mutations without reservations and are excluded from runs.
- `note_create_space_failed` releases the front reservation for any failed CreateSpace; only batches of `apply_event` and of the two workspace commands are considered.
- `reload_config`, pruning configuration sync, `set_ratio` and `set_ratio_for_window`, scratchpad toggling, cosmetic window actions and the shadow actions themselves are not modelled.
- Choosing the display a command acts on (`active_display_id`, `resolve_window`, `focused_window`, neighbouring displays) is left to the caller: commands take display and window as parameters. Their refusals for fullscreen or unknown windows are answers without effect.
- Regular expressions of rules, configuration parsing, JSON, and writing and renaming the state file are not modelled; persisted state is a datatype.
- The logical name of a Space is an input map, since hash-map order decides when two workspaces show one Space.
- The FlightRecorder, `Orientation` diagnostics, notification delivery, the command line, the macOS bridge and the WASM runtime are not modelled.
- NaN and infinities occur only in plugin answers, as a flag; `FRAME_EPSILON` is a constant of the comparison and its adequacy is not studied.
- Wake, topology-change and sleep events only mark observation stale or do nothing; spurious ones are covered by runs, their causes are not modelled.
