# Verification model of the bridge operator's node daemon

The node daemon keeps the Linux bridges of a node in step with declared bridge configurations. This project
models its three parts in Dafny and proves what they promise.

1. **The reconciler.** Configuration events (add, update, delete) create bridges, attach and detach egress
   interfaces, create and delete VLAN interfaces and keep two tables: which bridges the daemon looks after and
   whether it created them, and which ports it recorded for each bridge and whether it attached them itself.
2. **The mirroring passes.** The port watcher makes the port table mirror the kernel, the VLAN pass makes egress
   ports carry the PVIDs of the other ports, and the status publication makes API objects mirror the tables.
3. **The change tracker.** A compressed log of configuration events that must agree with replaying every event.

## How it is modelled

- `netlink.dfy` is the kernel: links by name (index, master index, kind, parent) and the VLANs of every port. Any
  mutating call may fail; a fault oracle decides, and a log records every link call with its outcome. "Whatever
  fails" below means: for every oracle. Lookups are exact.
- The imperative passes of the daemon are methods over the classes `Kernel`, `ManagedBridgePortsInfo`, `Server`,
  `ApiServer`, `BridgeConfChangeTracker` and `BridgeConfMap`, with the loops the daemon has. Loops over Go maps and
  over the kernel's link list visit their elements in an arbitrary order.
- What an egress pass does is described by a *plan*, a sequence of actions (`Release`, `Attach`, `DropVlan`,
  `PutVlan`); each pass is proved to carry out exactly its plan, fault by fault, and the properties are proved about
  plans.
- Handlers and passes are atomic steps. `Ownership` puts them into runs together with an environment that changes
  the kernel in between.

| file | contents |
|---|---|
| `configuration.dfy` | configurations, generated VLAN interface names and a parser for them |
| `netlink.dfy` | the kernel |
| `management.dfy` | the bridge and port tables, runs of their mutators |
| `reconcile.dfy` | the egress and egress VLAN passes |
| `records.dfy` | the passes seen at one port, whatever fails: recorded or not, on the bridge or not |
| `vlanfiltering.dfy`, `vlanproperties.dfy` | the VLAN pass; its outcome over many ports and many passes |
| `portwatch.dfy` | the port watcher |
| `bridges.dfy` | setting up, updating and tearing down a bridge; when a bridge is deleted |
| `soundness.dfy`, `vlansoundness.dfy` | recorded ports are enslaved links: what keeps it so; whole VLAN passes |
| `leftovers.dfy` | the VLAN pass seen at one interface, whatever fails; interfaces that are not deleted again |
| `realisation.dfy`, `history.dfy` | the state a configuration puts in force; updates |
| `chains.dfy` | exactly when the history of updates matters |
| `server.dfy` | the event handlers |
| `registration.dfy` | which bridges are registered, and what tearing one down reports |
| `selection.dfy` | nodes a configuration does not select |
| `roundtrip.dfy`, `watchedroundtrip.dfy` | Add, followed by updates, followed by Delete; with port watcher passes in between |
| `ownership.dfy` | whole runs in an environment that leaves configured names alone |
| `openruns.dfy`, `provenance.dfy` | whole runs in one that does not; where a bridge came from |
| `status.dfy` | publication of bridge status objects |
| `tracker.dfy` | the change tracker |

## Where the code does less than one would expect

Each of these is stated by a lemma or a contract, with the exact condition or with a concrete input.

- All egress ports of a bridge share one set of wanted VLAN ids, and each port takes out of it what it had already,
  so ports after the first may end without a desired id (`CarriesAllIff`, `LaterPortLoses`, `SecondPortLosesVlan`).
  VLAN 1 is added exactly when a port missed nothing.
- The VLAN interface pass records a port before it enslaves it and forgets it after it deletes it; a failure in
  between leaves a recorded port that is not on the bridge (`PutAlwaysSoundIff`, `DropAlwaysSoundIff`). Without failures
  it is sound exactly when it takes no recorded port from another bridge (`VlanPassSoundIff`). A whole pass is sound
  whatever fails exactly when it has nothing to do in the kernel (`VlanPassAlwaysSoundIff`).
- A VLAN interface whose creation fails half way is left over when it is no longer wanted (`PutThenDropLeavesIff`,
  `LeftOverIff`).
- An entry spelling out the default protocol and one leaving it empty name the same link, so dropping one of them
  deletes the link of the other (`ProtocolSpellingsClash`). For a single update `UpdateInForceIff` says exactly when
  this happens, for a chain of updates `HistoryIndependentIff` and `HistoryIndependentByNames` do.
- A port somebody else put on the bridge is forgotten when a configuration names it and a later one drops it, and only
  then (`ForeignAfterUpdateIff`, `ForeignAfterChainIff`, `ForeignPortForgotten`); the next port watcher pass records it
  again.
- If creating a bridge fails, the bridge stays recorded as created by the daemon (`AddedFlagIff`), and a bridge somebody
  else brings up under the name later is deleted with the configuration (`ForeignBridgeDeleted`). Exactly which
  deletions go wrong is stated for one deletion (`UnconfigureDeletesOwnIff`) and for whole runs, by the flags
  (`DeletesOwnIff`) and by the events that make them untrue (`FlagUntrueIff`, `DeletesOwnByEventsIff`).
- Node selection is not respected on updates. `OnBridgeConfigUpdate` evaluates the selector of the old configuration
  twice, so the branch for a changed selector cannot be taken and an update always reconciles. When that leaves a node
  alone that was not selected is stated exactly (`UnregisteredUpdateIff`); otherwise interfaces are put on a bridge of
  that name without being recorded (`UnselectedNodeLosesInterface`), and on a node that no configuration selects nothing
  the daemon does takes them off again (`NeverFreed`).
- The tracker's `BridgeConfChangeTracker.Update` reports a change for every event, also when nothing is left pending.
- The tracker drops an event after which a name is back to what the tracker took it to be at the last application,
  although the map to be updated says something else (`EventIsFollowedIff`, and over histories `InStepIff` and
  `AllInStepIff`); this can hit a correct event after an incorrect one (`ConsistentEventLost`).
- Renames make the order of application matter (`OrderIrrelevantIff`, `RenameMakesOrderMatter`).
- Objects of two nodes can have the same name (`SharedNameIff`), in which case one overwrites the other
  (`ForeignObjectsSurviveIff`).

## Model

| member | source | states |
|---|---|---|
| Configuration.ParseGeneratedName | pkg/server/bridgeconfig.go:32-39 | parent name, 802.1ad flag and id can be read back from every generated name, for every name (dots included) and every integer id |
| Configuration.SameNameIff | pkg/server/bridgeconfig.go:32-39 | two entries share an interface name exactly when parent, id and being 802.1ad agree |
| Reconcile.NameAndKind | pkg/server/bridgeconfig.go:32-39 | parent.IDad and an 802.1ad link for protocol "802.1ad", parent.ID and an 802.1q link for any other |
| Management.ManagedBridgePortsInfo.SetPortManagement | pkg/server/server.go:334-347 | records a port of a known bridge once; otherwise changes nothing and says why |
| Management.ManagedBridgePortsInfo.RemovePortManagement | pkg/server/server.go:349-360 | removes exactly the named entry, or reports that there is none |
| Management.ManagedIff | pkg/server/server.go:334-369 | a port counts as managed exactly when some call recorded it as managed and no call has removed it since, over every sequence of mutators |
| Management.OutcomesTell | pkg/server/server.go:290-360 | success is reported exactly when the tables change, and each error for what stood in the way |
| Management.RegisteredThroughout | pkg/server/server.go:290-360 | the two tables have the same bridges after any sequence of the four mutators |
| Management.NeverHalfDone | pkg/server/server.go:290-306 | from empty tables, whatever was done before, the rejection after a half-done registration never occurs |
| Management.BridgeFlagIsFixed | pkg/server/server.go:290-325 | while a bridge stays recorded its managed flag does not change |
| Management.PortFlagIsFixed | pkg/server/server.go:308-360 | while a port stays recorded its managed flag does not change |
| Reconcile.FindMissing | pkg/server/bridgeconfig.go:154-176 | the search loops compute the entries of one list absent from the other, in order and with repetitions |
| Reconcile.MissingIff | pkg/server/bridgeconfig.go:154-176 | membership in that difference, both directions |
| Reconcile.ReleaseAll | pkg/server/bridgeconfig.go:179-197 | the removal loop carries out its releases one by one, with every early exit |
| Reconcile.AttachAll | pkg/server/bridgeconfig.go:199-221 | the attaching loop carries out its attachments one by one, with every early exit |
| Reconcile.EgressInterfaceReconcile | pkg/server/bridgeconfig.go:151-223 | links, log and table after the pass are those of its plan, whatever fails |
| Records.ReleaseKeepsIff | pkg/server/bridgeconfig.go:179-197 | a managed port stays recorded exactly when its link is missing, has no master, or freeing it fails; otherwise it is freed |
| Records.ReleaseForgets | pkg/server/bridgeconfig.go:179-197 | any other port is forgotten and left alone |
| Records.AttachTakesIff | pkg/server/bridgeconfig.go:199-221 | a link is taken, and then recorded, exactly when it has no master and the call succeeds |
| Records.ReleasedInPassIff | pkg/server/bridgeconfig.go:151-223 | the same as the first for a whole pass and any lists, by the calls made at the port's turns |
| Records.AttachedInPassIff | pkg/server/bridgeconfig.go:151-223 | whatever fails, which links a whole pass takes and records, by the calls made at their turns |
| Records.KeptByUpdateIff | pkg/server/bridgeconfig.go:420-454 | whatever fails, which managed ports a whole update keeps recorded; releases come before all else |
| Reconcile.DropAll | pkg/server/bridgeconfig.go:253-277 | the VLAN removal loop carries out its removals one by one, with every early exit |
| Reconcile.PutAll | pkg/server/bridgeconfig.go:278-326 | the VLAN creation loop carries out its creations one by one, with every early exit |
| Reconcile.EgressVlanInterfaceReconcile | pkg/server/bridgeconfig.go:225-328 | links, log and table after the pass are those of its plan, whatever fails |
| Records.DropKeepsIff | pkg/server/bridgeconfig.go:253-277 | a managed VLAN interface stays recorded exactly when its link is missing, has no master, or freeing or deleting it fails; otherwise it goes |
| Records.ExistingPutIs | pkg/server/bridgeconfig.go:278-326 | an interface that is there is recorded, as unmanaged if new, and moved to the bridge unless the call fails |
| Leftovers.CreatedAs | pkg/server/bridgeconfig.go:278-326 | whatever fails, which interfaces a whole pass creates, with which name, kind and parent, and which are enslaved and recorded |
| Leftovers.DroppedInPassIff | pkg/server/bridgeconfig.go:225-328 | whatever fails, which managed interfaces a whole pass removes |
| VlanFiltering.RemoveUnwanted | pkg/server/bridgeconfig.go:331-343 | unwanted ids go from the port, ids present go from the caller's set |
| VlanFiltering.AddMissing | pkg/server/bridgeconfig.go:350-357 | the missing ids are added without flags, nothing else changes |
| VlanFiltering.BridgeVlanIDReconcile | pkg/server/bridgeconfig.go:330-358 | the exact VLANs and the exact remaining shared set when calls succeed; bounds on the VLANs whatever fails |
| VlanFiltering.GetBridgePorts | pkg/server/bridgeconfig.go:41-55 | exactly the links whose master is the bridge, each once |
| VlanFiltering.CollectEgressNames | pkg/server/bridgeconfig.go:375-381 | the egress names and generated VLAN names of a configuration |
| VlanFiltering.CollectDesired | pkg/server/bridgeconfig.go:386-396 | exactly the PVIDs of the ports that are not egress interfaces |
| VlanFiltering.ReconcileEgressPorts | pkg/server/bridgeconfig.go:398-403 | the egress ports are treated in turn with one shared set, nothing else is touched |
| VlanFiltering.EgressPortsInOrder | pkg/server/bridgeconfig.go:398-403 | they are treated in the order in which the bridge's ports are listed |
| VlanFiltering.BridgeVlanFilteringReconcile | pkg/server/bridgeconfig.go:360-406 | with calls succeeding every egress port is treated once, each asked for what its predecessors left; other ports untouched whatever fails |
| VlanProperties.PassOutcome | pkg/server/bridgeconfig.go:330-403 | the ids of the k-th egress port: what no earlier port had, plus VLAN 1 exactly when nothing was missing; the first port gets every desired id |
| VlanProperties.CarriesPvidsOnly | pkg/server/bridgeconfig.go:383-403 | VLAN 1 aside, the k-th egress port carries exactly the PVIDs of the other ports that no egress port before it had |
| VlanProperties.FirstCarriesAll | pkg/server/bridgeconfig.go:383-403 | the first egress port carries every PVID of the other ports, VLAN 1 included |
| VlanProperties.PassAchieves | pkg/server/bridgeconfig.go:360-406 | the same of the pass as the daemon makes it, with calls succeeding |
| VlanProperties.PassIsConfined | pkg/server/bridgeconfig.go:360-406 | whatever fails, the pass treats each egress port of the bridge once and leaves all other ports alone |
| VlanProperties.FlagsAfter | pkg/server/bridgeconfig.go:330-358 | the flags a treated port ends with: VLAN 1 as the only PVID when nothing was missing, old flags kept and new ids tagged otherwise; never two PVIDs |
| VlanProperties.CarriesAllIff | pkg/server/bridgeconfig.go:341-403 | when a later egress port ends with every desired id, both directions |
| VlanProperties.LaterPortLoses | pkg/server/bridgeconfig.go:341-403 | a desired id held by an earlier egress port, VLAN 1 aside, is gone from every later one |
| VlanProperties.SecondPortLosesVlan | pkg/server/bridgeconfig.go:341-403 | a concrete bridge, and the pass on it, in which this happens |
| VlanProperties.OthersUntouched | pkg/server/bridgeconfig.go:386-403 | ports that are not egress ports of the bridge keep their VLANs, so the desired ids stay the same |
| VlanProperties.FixedPoint | pkg/server/bridgeconfig.go:330-403 | with one egress port, every pass ends between the desired ids and those plus VLAN 1, and from the second pass on with the latter |
| VlanProperties.FlagsSettle | pkg/server/bridgeconfig.go:330-358 | from the second treatment on the port's VLANs do not change at all, flags included |
| PortWatch.RecordNewPorts | pkg/server/server.go:179-198 | every link enslaved to a registered bridge is recorded, new ones as unmanaged |
| PortWatch.TrimBridge | pkg/server/server.go:202-214 | a bridge's recorded ports that are not enslaved to it are removed, the others keep their flag |
| PortWatch.RemoveStalePorts | pkg/server/server.go:200-215 | the same over all registered bridges |
| PortWatch.BridgePortWatch | pkg/server/server.go:173-216 | from any table the pass yields the exact mirror of the kernel; surviving entries keep their flag, new ones are unmanaged |
| PortWatch.SecondPassChangesNothing | pkg/server/server.go:173-216 | a second pass changes nothing |
| PortWatch.UndisturbedIff | pkg/server/server.go:173-216 | a pass changes nothing exactly when the table already records the enslaved links of every bridge |
| Bridges.BridgeUpdate | pkg/server/bridgeconfig.go:420-454 | links and table change as the update's plan says; the VLANs change by one VLAN pass, made exactly when filtering is on or can be switched on; an error exactly when the bridge is missing |
| Bridges.BridgeConfigured | pkg/server/bridgeconfig.go:78-98 | an error exactly when creation or set-up fails, and then nothing else happens; otherwise an update from nothing, whose VLAN pass is always made since the bridge is created with filtering on |
| Bridges.ConfigureReports | pkg/server/bridgeconfig.go:78-98 | success is reported exactly when the bridge was created and set up |
| Bridges.BridgeUnconfigured | pkg/server/bridgeconfig.go:100-149 | drains the bridge, then deletes it under the code's conditions; an error exactly for a missing bridge, a managed one without port table and a failed deletion |
| Bridges.CheckAllManaged | pkg/server/bridgeconfig.go:126-134 | whether every recorded port is managed |
| Bridges.RemovingPlanShrinks | pkg/server/bridgeconfig.go:178-277 | whatever fails, draining forgets every unmanaged port it names, keeps all flags and touches no other port |
| Bridges.DeletionIff | pkg/server/bridgeconfig.go:100-149 | the bridge is put up for deletion exactly when it is managed and every recorded port the configuration does not name is managed, whatever fails in the passes |
| Registration.TeardownReports | pkg/server/bridgeconfig.go:100-149 | whatever fails, success is reported exactly when the bridge was there, had a table if flagged, and is gone if it was put up for deletion; nothing is then enslaved to it |
| Soundness.EgressPassKeepsSound | pkg/server/bridgeconfig.go:151-223 | whatever fails, recorded ports stay enslaved links, only this bridge's table changes, links are enslaved only from no master and freed only if recorded managed here |
| Soundness.PutAlwaysSoundIff | pkg/server/bridgeconfig.go:278-326 | adding a VLAN interface keeps the table sound under every fault exactly when it has nothing to enslave |
| Soundness.DropAlwaysSoundIff | pkg/server/bridgeconfig.go:253-277 | removing one does so exactly when it is not recorded as managed |
| Soundness.PutSucceedingSoundIff | pkg/server/bridgeconfig.go:278-326 | with calls succeeding, adding one keeps the table sound exactly when the link is not recorded under another bridge |
| Soundness.WatchRestoresSoundness | pkg/server/server.go:173-216 | after a port watcher pass the table is sound and complete, whatever it was before |
| VlanSoundness.VlanPassSoundIff | pkg/server/bridgeconfig.go:225-328 | with calls succeeding, a whole VLAN pass keeps the table sound exactly when no interface it puts on the bridge is recorded under another one |
| VlanSoundness.VlanPassAlwaysSoundIff | pkg/server/bridgeconfig.go:225-328 | a whole VLAN pass keeps the table sound under every fault exactly when no entry it removes is recorded as managed and every entry it adds has an absent parent or is on the bridge already |
| Leftovers.PutThenDropLeavesIff | pkg/server/bridgeconfig.go:253-326 | an interface created under any fault and then removed without one is left over exactly when creating the link succeeded and setting it up or enslaving it failed |
| Leftovers.LeftOverIff | pkg/server/bridgeconfig.go:225-328 | the same for every interface of a whole VLAN pass that is undone by the next, with the record that stays when only enslaving it failed |
| History.UpdateLeadsTo | pkg/server/bridgeconfig.go:420-454 | the links and the table one update leads to, with calls succeeding, whatever the two lists are and whichever VLAN interfaces are there |
| History.UpdateInForceIff | pkg/server/bridgeconfig.go:225-328 | the update puts the new configuration in force exactly when no VLAN entry that stays, and whose parent exists, shares its name with one that goes, unless one that comes has the name too |
| ChainExactness.ChainLeadsTo | pkg/server/bridgeconfig.go:420-454 | the links and the table any chain of updates leads to |
| ChainExactness.LiveChainIff | pkg/server/bridgeconfig.go:225-328 | which VLAN interfaces a chain leaves: those whose parent exists and that no update has dropped since one brought them in |
| ChainExactness.HistoryIndependentIff | pkg/server/bridgeconfig.go:420-454 | for any chain, the state is that after the direct update exactly when both leave the same VLAN names |
| ChainExactness.HistoryIndependentByNames | pkg/server/bridgeconfig.go:420-454 | the same condition read off the configurations |
| ChainExactness.HistoryIndependence | pkg/server/bridgeconfig.go:420-454 | in particular, if every update keeps the names of the VLAN entries that stay, the state after a chain is that after the direct update, fresh indices aside |
| ChainExactness.NothingLeftOver | pkg/server/bridgeconfig.go:225-328 | no chain leaves a VLAN interface its last configuration does not want |
| ChainExactness.SharedNameIsLost | pkg/server/bridgeconfig.go:253-277 | the link of an entry that goes is gone, also when an entry of the same name stays |
| ChainExactness.ProtocolSpellingsClash | pkg/server/bridgeconfig.go:32-39 | two spellings of the default protocol: dropping one entry deletes the link of the other, which stays wanted |
| ChainExactness.ForeignAfterUpdateIff | pkg/server/bridgeconfig.go:178-221 | whatever fails, a port somebody else attached stays recorded through an update exactly unless the update drops its name |
| ChainExactness.ForeignAfterChainIff | pkg/server/bridgeconfig.go:178-221 | whatever fails, it stays recorded through a chain exactly unless one of the updates drops its name |
| ChainExactness.ForeignPortForgotten | pkg/server/bridgeconfig.go:178-221 | taking its name up and dropping it again loses it, the direct update does not |
| RoundTrip.AddInForce | pkg/server/server.go:450-476 | with calls succeeding, Add puts the configuration in force on a fresh bridge and records the bridge as managed |
| RoundTrip.UpdatesAfterAdd | pkg/server/server.go:450-528 | Add followed by a chain of updates that keep the names of the entries that stay ends in the same state as Add of the last configuration, fresh indices aside |
| RoundTrip.UpdatesAfterAddIff | pkg/server/server.go:450-528 | for any chain, this holds exactly when no VLAN name the last configuration wants is lost on the way |
| RoundTrip.AddThenDelete | pkg/server/server.go:450-552 | Add then Delete restores every link with its master and both tables |
| RoundTrip.AddUpdateDelete | pkg/server/server.go:450-552 | so does Add, any chain of updates at all, and Delete of the last configuration |
| WatchedRoundTrip.MirrorInForce | pkg/server/server.go:173-216 | a port watcher pass over a configuration in force leaves its ports and flags as they are and mirrors the other bridges |
| WatchedRoundTrip.TurnsLeadTo | pkg/server/server.go:173-528 | after updates and watcher passes in any order the latest egress interfaces are in force, with some of the VLAN interfaces it wants and nothing else |
| WatchedRoundTrip.AddTurnsDelete | pkg/server/server.go:173-552 | Add, updates with watcher passes anywhere in between, and Delete restore every link and the tables, which are mirrored for the other bridges if the watcher ran |
| Server.Server.SetBridgeManagement | pkg/server/server.go:290-306 | both tables and the outcome, including the half-done rejection |
| Server.Server.UnsetBridgeManagement | pkg/server/server.go:308-325 | removes the bridge from both tables |
| Server.Server.OnBridgeConfigAdd | pkg/server/server.go:450-476 | the handler as a function of links, log and tables; the VLANs change by one VLAN pass exactly when the bridge is set up |
| Server.Server.OnBridgeConfigUpdate | pkg/server/server.go:478-528 | an update always reconciles, whatever the node selectors are, links and tables as well as VLANs |
| Selection.UnregisteredUpdateIff | pkg/server/server.go:478-528 | whatever fails, an update of an unregistered bridge changes nothing and asks the kernel for nothing exactly when the bridge is missing or its new entries have nothing to take or to put |
| Selection.UnselectedNodeLosesInterface | pkg/server/server.go:450-552 | on a node that is not selected, add and delete change nothing while an update takes an interface, unrecorded, and dropping its name leaves it taken |
| Selection.NeverFreed | pkg/server/server.go:450-552 | whatever fails, in every sequence of events of configurations that do not select the node, nothing is recorded and a link that has a master keeps it |
| Server.Server.OnBridgeConfigDelete | pkg/server/server.go:530-552 | the handler as a function of links, log and tables; the VLANs stay |
| Registration.AddRegisters | pkg/server/server.go:450-476 | whatever fails, Add registers the bridge, flagged by whether there was such a link, leaves a registered one and all others alone, always tries to create the link and stops where that fails |
| Registration.DeleteUnregisters | pkg/server/server.go:530-552 | whatever fails, and whether or not the bridge is there, Delete takes it out of both tables and leaves the others alone |
| Registration.RegisteredIff | pkg/server/server.go:450-552 | in every run a bridge is registered exactly when it has been added and not deleted since; its flag says whether there was no such link when it came to be |
| Server.Server.WatchPorts | pkg/server/server.go:173-216 | the port watcher as a step of the server |
| Ownership.DeletesOnlyOwnLinks | pkg/server/server.go:450-552 | in every run, with any call failing and any allowed environment, every link the daemon asks to delete was created by it under that name and index |
| Ownership.DropIsProper | pkg/server/bridgeconfig.go:253-277 | removing a VLAN interface deletes only a link the daemon created |
| OpenRuns.RegisteredInEveryRun | pkg/server/server.go:290-552 | the two tables agree on the bridges after every step of every run, whatever the names and the environment |
| OpenRuns.UnconfigureDeletesOwnIff | pkg/server/bridgeconfig.go:100-149 | whatever fails, tearing down a bridge deletes only own links exactly when, if the bridge is put up for deletion, the daemon created it |
| OpenRuns.DeletesOwnIff | pkg/server/server.go:450-552 | in every run whose environment may bring up links under bridge names, all deletions were of own links exactly when every deletion event found a truthful flag |
| OpenRuns.TruthfulInRuns | pkg/server/server.go:450-552 | in the runs of `Ownership` every deletion event finds a truthful flag |
| Provenance.FlagUntrueIff | pkg/server/server.go:290-552 | in every run, the flag of a bridge that is there is untrue exactly when the environment brought the link up and it has been there since |
| Provenance.DeletesOwnByEventsIff | pkg/server/server.go:450-552 | in every run, all deletions were of own links exactly when no deletion event put up a bridge the environment had brought up |
| OpenRuns.AddedFlagIff | pkg/server/server.go:462-473 | Add under an unused name flags the bridge as created, which is untrue exactly when creating it fails |
| OpenRuns.ForeignBridgeDeleted | pkg/server/server.go:450-552 | a concrete run, not allowed by `Ownership.Run`, in which a bridge of somebody else is deleted |
| Status.ListPorts | pkg/server/server.go:274-281 | every recorded port is listed once, with its flag |
| Status.DeleteStale | pkg/server/server.go:236-251 | exactly this node's objects of unregistered bridges are deleted |
| Status.PublishBridge | pkg/server/server.go:253-287 | the bridge's object is created if missing and describes the bridge; no other object changes |
| Status.BridgeInfoUpdate | pkg/server/server.go:230-288 | the exact store after a publication in which calls succeed; objects of other nodes are left alone whatever fails |
| Status.StatusMirrorsTables | pkg/server/server.go:230-288 | after a publication this node's objects are exactly those of the registered bridges, each with the bridge's flag and its recorded ports with theirs, every port once; all other objects are untouched |
| Status.ObjectsAfterIff | pkg/server/server.go:230-288 | which objects there are after a publication, whoever they belong to and however they are named |
| Status.ForeignObjectsSurviveIff | pkg/server/server.go:253-287 | objects of other nodes survive exactly when none has the name of one of this node's objects |
| Status.SecondPublication | pkg/server/server.go:230-288 | a second publication changes nothing but the order of listed ports |
| Status.SharedNameIff | pkg/server/server.go:254 | for all hosts and bridges, when two objects get the same name |
| Tracker.BridgeConfChangeTracker.Update | pkg/controllers/bridgeconfig.go:210-244 | the pending changes after an event, and the reported result |
| Tracker.FiledApart | pkg/controllers/bridgeconfig.go:198-208 | configurations that differ in namespace or name are entries of their own |
| Tracker.PendingApart | pkg/controllers/bridgeconfig.go:210-244 | so are their pending changes, applied in any order |
| Tracker.BridgeConfMap.Merge | pkg/controllers/bridgeconfig.go:166-170 | the other map's entries override |
| Tracker.BridgeConfMap.Unmerge | pkg/controllers/bridgeconfig.go:172-176 | the other map's keys are removed |
| Tracker.BridgeConfMap.Apply | pkg/controllers/bridgeconfig.go:150-164 | the changes are applied in some order and then cleared |
| Tracker.OrderIrrelevantIff | pkg/controllers/bridgeconfig.go:150-164 | the order does not matter, for any base map, exactly when the changes agree wherever two of them touch one entry |
| Tracker.RenameMakesOrderMatter | pkg/controllers/bridgeconfig.go:150-244 | a rename followed by reuse of the name is a history for which it does matter |
| Tracker.AppliedIsOverlay | pkg/controllers/bridgeconfig.go:150-164 | in any order, applying changes that keep their name lays them over the base map |
| Tracker.AnyOrderAfterKeptNames | pkg/controllers/bridgeconfig.go:150-244 | after any history of events that keep their name, consistent or not, the pending changes give the same map in any order |
| Tracker.Simulation | pkg/controllers/bridgeconfig.go:150-244 | over any interleaving of events and applications, base plus pending is the live map, and pending is exactly the difference of base and live |
| Tracker.NothingPendingAtBase | pkg/controllers/bridgeconfig.go:239-241 | nothing is pending exactly when the live map equals the base map |
| Tracker.BatchingIrrelevant | pkg/controllers/bridgeconfig.go:150-244 | after a final application the map is the same wherever earlier ones fell, and it is the replayed one |
| Tracker.EventIsFollowedIff | pkg/controllers/bridgeconfig.go:229-241 | which events, consistent or not, the tracker follows correctly, whatever it has pending, other names being in step |
| Tracker.InStepIff | pkg/controllers/bridgeconfig.go:150-244 | over any history of events that keep their name, with applications anywhere, a name is right exactly when its last event passed that test |
| Tracker.AllInStepIff | pkg/controllers/bridgeconfig.go:150-244 | the whole map is right exactly when every name is |
| Tracker.ConsistentEventLost | pkg/controllers/bridgeconfig.go:229-241 | an unexpected event followed by a consistent one that takes it back: the second is lost |

## Assumptions of the main results

- `DeletesOnlyOwnLinks`: egress names differ from generated VLAN names, and the environment brings up no link under a
  configured bridge name or a generated VLAN name. It may do anything else to the links, at any time.
- `DeletesOwnIff`: the same, except that the environment may also bring up links under bridge names.
- `FlagUntrueIff` and `DeletesOwnByEventsIff`: moreover the indices of links the environment brings up are new.
- `HistoryIndependentIff` and `HistoryIndependentByNames`: calls succeed; generated names are new and differ from egress
  names and VLAN parents; the names of the chain are not recorded for the bridge already (`ForeignAfterChainIff` says
  what happens to such a record). VLAN parents may be absent and entries may be repeated.
- `LeftOverIff` and `CreatedAs`: the interface's name is new and not recorded, no other entry has it, its parent is
  there, and no other link has the index of the bridge.
- `AddThenDelete`, `AddUpdateDelete`, `AddTurnsDelete` and `UpdatesAfterAddIff`: calls succeed; the bridge name is unused
  and unregistered; generated names are new and differ from the bridge name, egress names and VLAN parents. Egress
  interfaces may be absent or enslaved elsewhere.
- `ForeignAfterUpdateIff` and `ForeignAfterChainIff`: the bridge link is present, and no configuration uses the port's
  name as that of a VLAN interface (for chains, nor the bridge's).
- `VlanPassAlwaysSoundIff`: the table is sound, the bridge present and registered, indices are unique and positive.
- `VlanPassSoundIff`: calls succeed; generated names are neither those of registered bridges nor of VLAN parents.
- `AddTurnsDelete`, if the watcher runs: indices are unique, positive and below the next one, and registered bridges are
  present.
- `DroppedInPassIff`: no other entry the pass removes or adds has the interface's name, none it removes is its master.
- `TeardownReports`: no VLAN interface of the configuration has the name of the bridge.
- `UnregisteredUpdateIff`: the bridge is not registered, and its index is not 0.
- `BridgePortWatch`: every registered bridge and every master is present, indices are unique and positive.
- `StatusMirrorsTables`: this node's objects are named after it and no other object uses such a name.

## Left out

- Failing lookups, and the nil dereferences and failed type assertions that would follow them: lookups are exact, and
  on a link that is not a bridge the VLAN pass is simply not made.
- Deleting a link frees the links enslaved to it; that Linux also removes VLAN devices stacked on it is not modelled.
- Refusals of the kernel for reasons of its own (a bridge enslaved to a bridge, say) appear only as faults of the oracle.
- Mutex interleavings, unlocked map reads, goroutines and the bounded-frequency runners: handlers and passes are atomic.
- Label selector matching (pkg/server/server.go:432-448): an arbitrary fixed predicate of the selector.
- The unreachable branch of `OnBridgeConfigUpdate` for a changed selector (pkg/server/server.go:496-523).
- `bridgeWatch` and `bridgeReconcile`, which only run the VLAN pass for every configuration.
- The VLAN tables in the results about chains of updates, round trips and runs, which speak of links and tables.
- The VLANs the kernel itself gives a port that joins a bridge, and takes from one that leaves it.
- The shared port maps of Go are plain values here; the passes that hold on to one only read it or delete from it
  through the table.
- Nil receivers in the tracker, and the pointer to a change record held while it is edited.
- API reads that fail for other reasons than a missing object, and object metadata.
- Interface-name length limits, transmit queue lengths, event plumbing, options, generated clients, logging.
