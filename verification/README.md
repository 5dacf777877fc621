# A model of deployment expansion and orchestration

This project models the part of the repository that turns a plan into the node instances of a deployment, keeps
those instances consistent when the deployment is modified, and runs workflows over them.

- A plan is a graph of nodes and scaling groups with contained_in and connected_to relationships. `PlanBuilder`
  builds it, redirecting the containment of group members for the time of the expansion, and restores it after.
  `MemberCheck` models how the parser checks the members of groups and takes some of them out, and
  `PlanValidation` what that means for the graph. `Graphs`, `Forests` and `PlanGroups` hold the graphs, their
  containment forests and the lowest shared group. `Forks` is about plan graphs in which an element has several
  containers. `MemberExamples`, `ApartExamples` and `PlanExamples` hold plans at which conditions fail.
- `Expansion` expands the plan into an instance graph, tree by tree, keeping what a previous deployment has;
  `Growth` states what that keeps step by step, `ScaleIn` chooses which instances go, and `Deployments` states
  what fresh and modified deployments look like as a whole. `Partition`, `Connections` and `Wiring` add the
  edges between instances, `Modifications` does so for a modification. `Survival`, `Outcomes` and
  `ModificationHints` tell which instances a modification keeps, and `SharedTargets` and `LostTarget` what becomes
  of the one target of an all_to_one relationship.
- `Extraction`, `Transparency` and `MultiInstance` hand out the node instances so that groups do not show;
  `RoundTrip` and `FreshRoundTrip` build the instance graph back from them, `GraphDiff` reports what changed
  between two graphs, and `Redeployment` puts a whole modification together.
- `Resolution`, `DeployedResolution` and `NameResolution` resolve a node name to an instance, and
  `EvaluationCache` answers from caches what storage would answer. `Schema` merges properties with their schema.
- `OptimisticUpdate`, `RuntimeProperties`, `WorkerPool`, `PublishQueue` and `WorkflowRunner` model the
  concurrent protocols: retried updates of runtime properties, the bounded pool of message handlers, the send
  queue that survives reconnections, and the parent and child of a running workflow.
- `TaskGraphs` and `Lifecycle` model the dependencies of install and uninstall workflows, and `PathAccess` the
  access to nested properties. `Decimals` writes numbers, for paths and for their printed forms.

Code that changes things step by step is modelled by classes and methods with loops, proved against functions and
predicates; protocols are step relations, and their theorems hold for every run. `dafny verify dfyconfig.toml`
checks the whole project.

## Findings

Some statements one would expect are not true of the code. Each is stated with the exact condition under which it is.

- The parser checks the members of groups before it takes some of them out, and not again. So a group that is
  handed on can have contained and uncontained members (`MemberExamples.MixedHandedOn`), groups can end up
  containing each other (`MemberExamples.LoopHandedOn`), and whether a plan is accepted can depend on the order of
  a set (`MemberCheck.EveryOrderExactly`, `MemberExamples.LoopRejected`). The expansion can work
  on the plan's graph exactly if, in the groups handed on, contained members share their container and groups do not
  nest in a loop (`PlanValidation.HandedOnIsValid`); for a plan handed on as it is written the first is enough
  (`PlanValidation.UntouchedIsValid`).
- That one is not ensured either: the members of a scaling group may declare different direct containers, a
  farther shared one being enough. Then the group and its members are expanded once for each container, so their
  numbers are not the declared product and a member can be in a node that it does not declare
  (`Forks.CountExactly`, `ApartExamples.ExpandApart`); and the ancestor walks of a connection that has such a
  member at either end fail (`Forks.ContainingGroupsOrFail`).
- A node named by the empty string is not restored after the expansion (`PlanBuilder.RestoreUndoes`).
- A scale-in may remove the shared target of an all_to_one relationship, exactly when the hints and counts along
  its containers allow it (`SharedTargets.SharedTargetExactly`). The sources are then wired to the missing
  instance, and since that edge brings it back into the graph, it is not reported as removed
  (`LostTarget.Modify`); if a source is added as well, the report cannot be read (`LostTarget.NewSourceUnreadable`).
- Modifying a deployment leaves the relationships of the previous nodes redirected (`Redeployment.ModifyNodes`).
- A group instance that no node instance records together with its container is not built back from storage; for
  created deployments the plan tells when (`FreshRoundTrip.AllRecordedExactly`, `PlanExamples.EmptyGroupLost`).
- A task can wait beside a free slot of the pool unless both the buffering of a refused delivery and the last exit
  of a worker are uninterrupted; guarding the first alone is not enough (`WorkerPool.NoIdleSlotExactly`).
- Opening a connection forgets that it was closed meanwhile: any close made before the thread has left its loop can
  be undone, and a caller that closes and joins may wait for any number of further steps
  (`PublishQueue.CloseStaysExactly`, `PublishQueue.FinalExactly`, `PublishQueue.CloseForgotten`).
- A last path segment of index form is written as a key and not read back (`PathAccess.ReadBackExactly`).
- Capability paths that print the same get each other's answers (`EvaluationCache.AlwaysFaithfulExactly`).
- A refused change to read-only runtime properties stays, and a key added with setdefault is not sent
  (`RuntimeProperties.DirtyTrackingDict.Apply`).

## Model

| member | source | states |
|---|---|---|
| PlanBuilder.Builder.BuildNodeGraph | dsl_parser/rel_graph.py:37-112 | The graph has exactly the plan's nodes and groups, each with the number of instances and, for nodes, the relationships that the plan gives it; its edges are one per member and group, one per relationship, and one from the outermost group of a member to the container the member declares; the nodes' contained_in relationships are redirected in place, in the graph as well |
| PlanBuilder.Builder.RestorePlanNodeGraph | dsl_parser/rel_graph.py:950-956 | Every relationship gets back the target recorded when it was replaced, in the plan's nodes and in the graph that holds them, and no record of a replacement is left |
| PlanBuilder.RestoreUndoes | dsl_parser/rel_graph.py:84-110 | Restoring a redirected relationship gives back the original exactly when the original had a nonempty target and nothing replaced yet |
| PlanBuilder.RestoreUndoesAll | dsl_parser/rel_graph.py:950-956 | Restoring a redirected node gives back the node, whatever groups it is in |
| PlanBuilder.ContainmentIsPlan | dsl_parser/rel_graph.py:37-112 | The containment edges of the finished graph are exactly: member to group, uncontained node to its declared container, outermost group to its members' declared container |
| PlanBuilder.SingleContainerExactly | dsl_parser/rel_graph.py:887-928 | No element has two containers, which the ancestor walks assert at each step, if and only if the contained members of each outermost group declare the same direct container |
| MemberCheck.CheckPairs | dsl_parser/elements/policies.py:420-503 | The check of the nodes that share a group, on the groups as they are written: it accepts a plan only if in some order of the problematic pairs each leans on a pair that passed or was accepted before it, and rejects it only if in some order it comes to a pair that leans on none |
| MemberCheck.EveryOrderExactly | dsl_parser/elements/policies.py:471-503 | Every order in which the set of problematic pairs can be listed leads to acceptance if and only if each of them leans on a pair that passed at once |
| MemberCheck.FindTaken | dsl_parser/elements/policies.py:516-549 | The member to be taken out for a node and a container of it that share a group: the node if that group is its own, else the group around it that is a direct member of the lowest shared one |
| MemberCheck.RemoveContainedNodes | dsl_parser/elements/policies.py:505-549 | Exactly these members are taken out, for every node and each of its containers, and nothing else of the groups changes |
| MemberCheck.ValidateAndUpdateGroups | dsl_parser/elements/policies.py:378-399 | The two together: what is handed on are the groups without those members; nothing is checked again |
| MemberCheck.HandedValidated | dsl_parser/elements/policies.py:505-549 | The groups that are handed on are still well formed |
| MemberCheck.HandedUnchangedExactly | dsl_parser/elements/policies.py:505-549 | They are the groups as written if and only if no node shares a group with a node that contains it |
| MemberExamples.MixedHandedOn | dsl_parser/elements/policies.py:378-399 | A plan that is accepted because of a member that is then taken out: the group handed on has a member that is contained and one that is not |
| MemberExamples.LoopHandedOn | dsl_parser/elements/policies.py:378-399 | A plan, for any seven different names, that is accepted and handed on with groups whose members share their containers, and that contain each other |
| MemberExamples.LoopRejected | dsl_parser/elements/policies.py:494-503 | The same plan is rejected if the problematic pairs come in another order |
| PlanValidation.NoMixedPair | dsl_parser/elements/policies.py:420-503 | If nothing is taken out, of two nodes that share a group either both are contained or neither is |
| PlanValidation.LoopsExactly | dsl_parser/rel_graph.py:37-112 | The containment of a plan's graph loops if and only if the outermost groups are, over the containers of their members and the groups around these, nested in a loop |
| PlanValidation.HandedOnIsValid | dsl_parser/rel_graph.py:37-112 | Of an accepted plan the graph built from what is handed on is one that the expansion can work on if and only if, in the groups handed on, the contained members of each outermost group share their container and the outermost groups do not nest in a loop |
| PlanValidation.UntouchedIsValid | dsl_parser/rel_graph.py:37-112 | If an accepted plan is handed on as it is written, the first of the two is enough |
| ApartExamples.AcceptedButApart | dsl_parser/elements/policies.py:378-399 | A plan, for any six different names, that is accepted and handed on as it is written, with members in two nodes that share only a farther container |
| Forks.ContainingGroupsOrFail | dsl_parser/rel_graph.py:900-913 | On any plan graph without loops the walk up from a node fails its single-successor assertion if and only if some way up leads to an element with several containers |
| Forks.BuildTree | dsl_parser/rel_graph.py:408-447 | From any plan graph without loops, whether or not containers are single, a fresh expansion builds exactly the instances that the ways down from the root give, one for each number within the counts |
| Forks.KidsExactly | dsl_parser/rel_graph.py:408-447 | So an instance of any of its containers gets an element's full number of instances, and nothing else is built |
| Forks.CountExactly | dsl_parser/rel_graph.py:408-447 | An element has its own number times the instances that all its containers have together |
| Forks.OtherRootsLost | dsl_parser/rel_graph.py:394-405 | Of a connected part of the plan only what is below the one root that is taken is expanded: another element that is in nothing has no instances |
| ApartExamples.ApartForks | dsl_parser/rel_graph.py:891-913 | In the graph of that plan the walk from either member of the group leads to two containers |
| ApartExamples.ExpandApart | dsl_parser/rel_graph.py:394-447 | What is built from that plan, all of whose declared numbers are one: two instances of each member of the group, an instance of one member in the node that the other one declares; if the members are connected, which both ends having instances is enough for, the walk for the connection fails |
| PlanBuilder.BuiltIsValid | dsl_parser/rel_graph.py:37-112 | A validated plan, parsed or not, yields a graph that the expansion can work on if and only if the members share containers and the containment with groups in between does not loop |
| PlanBuilder.BuiltUnmixed | dsl_parser/rel_graph.py:821-833 | No edge of the graph is at once a containment and a connection |
| PlanGroups.TopologicalSort | dsl_parser/rel_graph.py:891-898 | The specification given to the library's sort: every element reachable from the starts, once, each before its container |
| PlanGroups.ContainersLater | dsl_parser/rel_graph.py:891-898 | In any such order an element stands before everything that contains it |
| PlanGroups.LowestFirst | dsl_parser/rel_graph.py:891-898 | If every start contains the lowest one, that one comes first in every topological order |
| PlanGroups.ContainingGroups | dsl_parser/rel_graph.py:900-913 | The walk up the containment graph collects exactly the groups on the chain of containers, innermost first; its single-successor assertion never fails |
| PlanGroups.MinimalContainingGroup | dsl_parser/rel_graph.py:891-898 | The result is None exactly when no group contains both nodes; otherwise it is a group that contains both and that every other shared group contains |
| PlanGroups.LowestSharedGroupUnique | dsl_parser/rel_graph.py:891-898 | There is only one such group |
| ScaleIn.GetHints | dsl_parser/rel_graph.py:523-546 | A hint in the list stands for itself; any other stands for the group instances of the list that record it as a member, if there are any |
| ScaleIn.HandleRemovedInstances | dsl_parser/rel_graph.py:549-578 | Exactly the requested number of ids stays, in their order: included ones go first, then those not excluded in list order, then the rest in list order |
| ScaleIn.PassesChoose | dsl_parser/rel_graph.py:549-578 | The three removal passes together take the ids in the order of these classes |
| ScaleIn.IncludedStaysLast | dsl_parser/rel_graph.py:549-578 | An id to be removed survives only if every removed id was to be removed |
| ScaleIn.ExcludedGoesLast | dsl_parser/rel_graph.py:549-578 | An id to be spared, and not also to be removed, goes only if every survivor was to be spared |
| ScaleIn.ChoiceUnique | dsl_parser/rel_graph.py:549-578 | The result is determined by the number to keep as soon as some removed id was not a hint |
| Survival.SafeExactly | dsl_parser/rel_graph.py:549-578 | A previous instance is kept by every removal that the hints allow, in whatever order the ids are listed, if and only if as many as have to go go before it: more readily by the classes of the hints |
| Survival.DoomedExactly | dsl_parser/rel_graph.py:549-578 | It is removed by every such removal if and only if no more than have to go go at least as readily |
| Expansion.Context.ScaledIn | dsl_parser/rel_graph.py:481-520 | A scale-in keeps exactly the requested number of a node's previous instances in one container, chosen by its hints |
| Expansion.Context.PreviousIds | dsl_parser/rel_graph.py:450-520 | The previous instances that stay and the number of new ones: the requested count for a modified node, else the larger of the previous count and current_instances |
| Expansion.Context.BuildAndUpdate | dsl_parser/rel_graph.py:450-520 | One container for each surviving previous instance and for each new one, all ids distinct, new ids unused so far |
| Expansion.Context.AddContainer | dsl_parser/rel_graph.py:408-447 | The instance, its single containment edge and nothing else are added; a previous instance keeps its record and takes the stored record of its containment, without which extraction has failed, a new one takes a copy of the plan edge |
| Expansion.Context.BuildTree | dsl_parser/rel_graph.py:408-447 | Below one instance each element of the subtree has exactly the instances due to it, each contained in an instance of its plan container; nothing outside the subtree changes |
| Expansion.Context.BuildChildren | dsl_parser/rel_graph.py:408-447 | The same for the children of one new instance |
| Expansion.Context.HandleContainedIn | dsl_parser/rel_graph.py:394-405 | Over all containment trees: the instance graph is sound and complete for the plan and the modification |
| Deployments.FiberCount | dsl_parser/rel_graph.py:394-520 | If each of some holders holds k elements and every element is held by one of them, there are k times as many elements as holders |
| Deployments.FreshKids | dsl_parser/rel_graph.py:450-520 | In a fresh deployment each instance of a container holds exactly current_instances instances of each child |
| Deployments.FreshCount | dsl_parser/rel_graph.py:394-520 | A fresh deployment has exactly the product of current_instances over a node and all its containment ancestors as instances of it |
| Deployments.ModifiedKids | dsl_parser/rel_graph.py:460-520 | After a modification each instance of the container holds the requested number of a modified node, and max(previous, current_instances) of any other |
| Deployments.SurvivorsContainer | dsl_parser/rel_graph.py:408-447 | A previous instance survives only if its container does, and stays in it |
| Deployments.RemovalClosed | dsl_parser/rel_graph.py:408-447 | Removal is closed under containment at any depth |
| Deployments.UnmodifiedStays | dsl_parser/rel_graph.py:460-480 | An instance of a node that is not modified stays if its container stays |
| Deployments.NextPrevious | dsl_parser/rel_graph.py:842-870 | What a modification builds, with all its edges, is a valid starting point for the next one; what storage gives back of it is the subject of Redeployment.BackIsPrevious |
| Deployments.ExpandFresh | dsl_parser/rel_graph.py:394-405 | The fresh expansion: its graph represents instances that satisfy the counts above, every edge and node labelled from the plan |
| Deployments.ExpandModified | dsl_parser/rel_graph.py:394-405 | The expansion of a modification ends with an error exactly if a kept instance lacks the record of the containment that its node declares; otherwise its graph represents sound and complete instances, kept ones with their stored records, new ones labelled from the plan; which ones are kept is ModificationHints.HintsObeyed |
| Deployments.ModifiedGraph | dsl_parser/rel_graph.py:394-520 | In that graph each container holds the requested or the larger number of each child, each contained instance has one container, and no kept instance has lost its container |
| Deployments.KeptRecord | dsl_parser/rel_graph.py:581-594 | The containment edge of a kept instance carries the first of its stored records with the type of the first containment that its node declares, and none if it declares none |
| ModificationHints.CountObeyed | dsl_parser/rel_graph.py:450-520 | In the modification's own terms: of the previous instances of a node in one place as many stay as are requested, and all if no fewer are |
| ModificationHints.HintsObeyed | dsl_parser/rel_graph.py:523-578 | And the hints decide which: an instance that was asked to be removed stays only if all that go were asked for, and one that was to be spared, and not also removed, goes only if all that stay are spared and none was asked for; a hint may name a member of a group instance instead of it |
| Outcomes.SomeOutcome | dsl_parser/rel_graph.py:394-578 | Whatever survivors the hints allow at each container, some outcome of the modification has exactly these |
| SharedTargets.AlwaysKeptExactly | dsl_parser/rel_graph.py:408-578 | A previous instance is in every outcome if and only if it and each of its containers is safe where it was |
| SharedTargets.NeverKeptExactly | dsl_parser/rel_graph.py:408-578 | It is in no outcome if and only if it or one of its containers is doomed where it was |
| Partition.ChainNames | dsl_parser/rel_graph.py:915-928 | The containers of an instance instantiate the containers of its plan node, one for one and in order |
| Partition.OneGroupInstance | dsl_parser/rel_graph.py:915-928 | An instance lies in exactly one instance of each group that contains its node |
| Partition.EveryContainerHolds | dsl_parser/rel_graph.py:731-750 | In a fresh deployment, if a node has instances at all, every instance of each of its containers holds one |
| Partition.HoldersAreAll | dsl_parser/rel_graph.py:731-750 | So both ends of a relationship give the same keys to the partition |
| Partition.TogetherAbove | dsl_parser/rel_graph.py:673-750 | Instances together in an instance of a group are together in every group that contains it |
| Connections.ContainingGroupId | dsl_parser/rel_graph.py:915-928 | The walk finds the instance of the group that holds the given instance; its single-successor assertion never fails |
| Connections.ScalingGroupsMap | dsl_parser/rel_graph.py:753-765 | Each group instance with exactly the given instances that it holds |
| Connections.PartitionInstances | dsl_parser/rel_graph.py:731-750 | Sources and targets are paired exactly when the same group instance holds both; None exactly when the assertion on the key sets fails |
| Connections.FreshPartitionable | dsl_parser/rel_graph.py:745 | In a fresh deployment the key sets of both ends are equal |
| Wiring.FreshEven | dsl_parser/rel_graph.py:745 | So in a fresh deployment no relationship runs into the partition's assertion |
| Connections.AllToOne | dsl_parser/rel_graph.py:652-670 | All sources get one shared target: the recorded one if there was one before, else the least instance |
| Connections.AllToAll | dsl_parser/rel_graph.py:673-728 | Each source gets exactly the targets in the same instance of the lowest shared group, or all targets without a shared group |
| Connections.ConnectNodes | dsl_parser/rel_graph.py:673-728 | One plan relationship: exactly the edges its connection type calls for are added, or exactly the error that the source raises is returned |
| Modifications.BuildPreviousTargets | dsl_parser/rel_graph.py:634-649 | Exactly the targets that the previous edges record, by source node, target node and relationship type |
| SharedTargets.StillPointsAt | dsl_parser/rel_graph.py:652-670 | If an all_to_one relationship had one target, every source is connected to that one and no other, whether or not it is an instance still |
| SharedTargets.SharedTargetExactly | dsl_parser/rel_graph.py:634-670 | That target is an instance of its node in every outcome of a modification if and only if it and its containers are safe, and in none if and only if one of them is doomed |
| SharedTargets.UndiminishedTargetStays | dsl_parser/rel_graph.py:634-670 | In particular it is if no element along its previous containers is requested below what that container held |
| LostTarget.Modify | dsl_parser/rel_graph.py:652-670 | A modification after which it is not: asked to remove the target, it wires the source to the missing instance, and the report of what changed does not have it among the removed |
| Redeployment.ReadableExactly | dsl_parser/rel_graph.py:226-239 | The parts of a report that show what one graph has and the other has not contain no node without data, at which reading the instances out would fail, if and only if every edge that only the first has leads from an instance to an instance |
| LostTarget.NewSourceUnreadable | dsl_parser/rel_graph.py:226-239 | So a modification of any plan that removes the recorded target and adds a source ends in a report whose added or extended part cannot be read |
| Wiring.NotContainment | dsl_parser/rel_graph.py:610-631 | Connection edges never fall on a containment edge |
| Wiring.OneRelationship | dsl_parser/rel_graph.py:610-631 | No pair of instances is connected by two plan relationships |
| Wiring.SupportedExactly | dsl_parser/rel_graph.py:810-818 | A plan passes the check for unsupported relationships if and only if each of its relationships is a containment or a connection |
| Wiring.HandleConnections | dsl_parser/rel_graph.py:610-631 | Over all relationships, in any order, of fresh and modified deployments: the containment edges stay, and a connection edge exists exactly when its relationship calls for it, or one of the errors due is returned, the failing assertion of the partition among them |
| Wiring.BuildFreshDeployment | dsl_parser/rel_graph.py:198-227 | A fresh deployment either fails exactly when a relationship is unsupported or its connection type is not allowed, or has exactly the nodes and edges described above |
| Modifications.BuildModifiedDeployment | dsl_parser/rel_graph.py:198-227 | A modification ends with an error only where one is due, by an unsupported relationship, a missing record or a connection, and otherwise with exactly the nodes and edges described above |
| Extraction.ContainingGroupInstances | dsl_parser/rel_graph.py:930-948 | The group instances up to the nearest ancestor that is not a group, innermost first, and that ancestor |
| Extraction.SortedTargets | dsl_parser/rel_graph.py:247-299 | All relationship edges of an instance, each once, in the order of the plan's list |
| Extraction.ExtractInstance | dsl_parser/rel_graph.py:247-299 | The scaling_groups of an instance are exactly its chain of group instances; its relationships are its edges in order, redirected ones pointing at what really holds it |
| Extraction.ExtractNodeInstances | dsl_parser/rel_graph.py:247-299 | Every instance that is not a group instance is handed out exactly once |
| Transparency.EdgeKind | dsl_parser/rel_graph.py:263-266 | What an edge of a node carries tells whether it leads into a group, as extraction supposes |
| Transparency.DeclaredAbove | dsl_parser/rel_graph.py:84-110 | Right above the groups around a redirected relationship's node is the container it declared |
| Transparency.HolderOf | dsl_parser/rel_graph.py:930-948 | What holds the groups around an instance is an instance of what holds the groups around its node |
| Transparency.FreshExtractable | dsl_parser/rel_graph.py:247-299 | A fresh deployment meets all that extraction relies on |
| Transparency.HandedAsDeclared | dsl_parser/rel_graph.py:247-299 | Each relationship handed out has the type, target name and position that the plan declared, targets an instance of that node, and a contained_in targets a real ancestor of the instance |
| MultiInstance.CreateDeploymentPlan | dsl_parser/multi_instance.py:24-39 | The whole of it: for each node of the plan exactly the product of the declared counts over the node, its groups and its containers are handed out, wired as above, and the plan's nodes come back unchanged |
| RoundTrip.BuildPart | dsl_parser/rel_graph.py:117-195 | What one stored instance gives back: nodes and edges, with names, group marks, records and positions; it raises exactly when the instance's node is gone from the plan and it has relationships, or a relationship was replaced and no group is recorded |
| RoundTrip.RaisesExactly | dsl_parser/rel_graph.py:141-158 | An instance cannot be built back if and only if it has relationships but its node is gone from the plan, or has one of which there is no edge any more while no group is recorded on it |
| RoundTrip.BuildPreviousDeploymentNodeGraph | dsl_parser/rel_graph.py:115-195 | The loops over the stored instances build the parts of all of them together, every node and edge with what one of them gives it, or raise if building one of them does |
| RoundTrip.RewrittenBack | dsl_parser/rel_graph.py:139-167 | Each relationship handed out is turned back into the record of the edge it was read from |
| RoundTrip.StepsToTarget | dsl_parser/rel_graph.py:168-195 | With a replaced contained_in, the recorded groups give back their containment up to the declared container |
| RoundTrip.StepsToOutermost | dsl_parser/rel_graph.py:168-195 | Without one, they give it back up to the outermost group |
| RoundTrip.PartExactly | dsl_parser/rel_graph.py:136-195 | One stored instance gives back exactly its own edges and those of the group instances recorded on it together with their container |
| RoundTrip.RebuiltExactly | dsl_parser/rel_graph.py:115-195 | Over all stored instances together: every edge of a node instance comes back, and the containment of a group instance exactly when some instance records it together with its container; nothing else does |
| RoundTrip.NodesBack | dsl_parser/rel_graph.py:117-134 | The nodes that come back are the node instances and the group instances that hold one |
| RoundTrip.AllContainmentBack | dsl_parser/rel_graph.py:115-195 | For any deployment whose edges are recognizable the containment graph comes back whole if and only if every contained group instance is recorded together with its container |
| RoundTrip.DeclaredGone | dsl_parser/rel_graph.py:151-153 | A redirected relationship leaves no plan edge to its declared container, which is how it is recognized |
| FreshRoundTrip.ComesBackExactly | dsl_parser/rel_graph.py:168-195 | In a fresh deployment the containment of a group instance comes back if and only if its group has a node among its members, through groups, that has instances and, where the group is an outermost one, declares a container |
| FreshRoundTrip.AllRecordedExactly | dsl_parser/rel_graph.py:115-195 | So all of it comes back if and only if every contained group with instances has such a node, by the declared counts |
| FreshRoundTrip.FreshRoundTrip | dsl_parser/rel_graph.py:115-195 | Building back the instances of a fresh deployment never raises, and gives back the containment graph exactly under that condition on the plan |
| FreshRoundTrip.GroupEdgeBack | dsl_parser/rel_graph.py:168-194 | The edge built back for a group instance is the one that the deployment gave it, record and position included |
| PlanExamples.EmptyGroupLost | dsl_parser/rel_graph.py:168-195 | A plan that does not meet it, a group whose one member has no instances: whatever it is expanded into, the containment that is built back is not the deployment's |
| Redeployment.BackIsPrevious | dsl_parser/rel_graph.py:115-195 | The graph built back from a deployment's stored instances is one that a modification can start from, under any plan in which groups are still groups and nothing is contained in what it was only connected to |
| Redeployment.MembersBack | dsl_parser/rel_graph.py:115-139 | In the graph built back exactly the node instances record groups, and each exactly the group instances that are directly around it |
| Redeployment.FreshStored | dsl_parser/rel_graph.py:115-195 | Every created deployment can be built back so |
| Redeployment.CarriesOverItself | dsl_parser/rel_graph.py:115-195 | Its own plan, with any counts requested, is such a plan |
| Redeployment.ModifyDeployment | dsl_parser/multi_instance.py:58-104 | From the stored instances to the report: the graph built back, the modified graph, or the error due, and exactly the differences of the two graphs |
| Redeployment.PlanUnique | dsl_parser/rel_graph.py:37-112 | Nodes and groups determine their plan graph |
| Redeployment.ModifyNodes | dsl_parser/multi_instance.py:46-104 | The same from the nodes of both plans: the new nodes come back unchanged if the modification ends with a graph; the previous ones come back with their relationships redirected, whatever happens, which changes nothing if and only if no member of a group is contained in a node |
| GraphDiff.GraphDiff | dsl_parser/rel_graph.py:359-372 | The missing nodes, marked, with all edges that touch them and the nodes at the other ends; marks leak into the first graph for these nodes only |
| GraphDiff.GraphDiffRelationships | dsl_parser/rel_graph.py:375-391 | The missing edges whose source the other graph has, with exactly their sources marked |
| GraphDiff.FilterKeepsSources | dsl_parser/multi_instance.py:107-112 | Filtering drops no source of an extended or reduced relationship, and leaves no foreign mark |
| GraphDiff.EdgesPatch | dsl_parser/multi_instance.py:74-104 | Taking away the removed and reduced edges and adding the added and extended ones turns the previous edges into the new ones |
| GraphDiff.ModifyDeployment | dsl_parser/multi_instance.py:74-104 | The four parts are marked exactly (added is new minus previous, removed is previous minus new), each has exactly the edges due to it, and they patch the previous nodes and edges into exactly the new ones |
| Resolution.GroupInstanceExactly | dsl_parser/functions.py:491-498 | Looking up a group's instance succeeds exactly for the groups around the instance |
| Resolution.FirstSharedIs | dsl_parser/functions.py:479-489 | The shared group is the innermost one of the context that is also around the first candidate |
| Resolution.IllegalExactly | dsl_parser/functions.py:479-517 | 'Illegal state' is raised if and only if some candidate is not in the innermost shared group |
| Resolution.FoundExactly | dsl_parser/functions.py:500-517 | An instance is returned if and only if it alone, of all candidates, is in the context's instance of the innermost shared group |
| Resolution.NeverIllegal | dsl_parser/functions.py:479-517 | With all candidates in the same groups no error is reachable |
| Resolution.AnswerIsCandidate | dsl_parser/functions.py:405-434 | Any answer, over any storage, is one of the node's instances; which one is NameResolution.AnswerExactly |
| NameResolution.AnswerExactly | dsl_parser/functions.py:405-532 | Over a fresh deployment's storage the answer is: no instances exactly if there are none; the only one if there is one; else the instance that all of the context's own relationships to the name lead to; else the one that is alone with the context in the innermost group they share, a relationship's source asked before its target; and ambiguous exactly if none of these applies. The illegal state is unreachable |
| NameResolution.IllegalAnswerExactly | dsl_parser/functions.py:405-532 | Over any storage, a name of several instances ends in an illegal state if and only if the context's own relationships to the name all lead to what is no instance of it or, where they do not decide, the innermost group shared with the first candidate is not around all of them; a relationship's target is asked only if its source decides nothing |
| NameResolution.LookupExactly | dsl_parser/functions.py:459-498 | The lookup finds each group instance that is really around an instance, and no other of that group, as long as the nodes on the way up declare their containers themselves |
| DeployedResolution.StoredParent | dsl_parser/functions.py:459-470 | Over a fresh deployment the stored relationships lead from an instance to the instance that holds it, past any groups |
| DeployedResolution.StorageConsistent | dsl_parser/functions.py:459-477 | So the recursion over stored parents always resolves and terminates |
| DeployedResolution.InstancesAlike | dsl_parser/functions.py:472-477 | All instances of one node are in the same groups |
| DeployedResolution.LookupIsReal | dsl_parser/functions.py:491-498 | The group instance found through stored records is the one that holds the instance in the deployment graph |
| DeployedResolution.ResolvesWithinGroup | dsl_parser/functions.py:456-532 | Over a fresh deployment resolution never fails, and what it returns is the only instance of its node in the context's instance of the innermost shared group |
| DeployedResolution.ResolvesExactly | dsl_parser/functions.py:500-517 | Over a fresh deployment, when there is a group to share, some instance of the node is always in the context's instance of the innermost one, and resolution returns an instance if and only if that one is alone there; so one candidate for each group instance always resolves |
| EvaluationCache.ConvertAttributeList | dsl_parser/functions.py:131-147 | The loop yields the printed path |
| EvaluationCache.PrintInjective | dsl_parser/functions.py:131-147 | Printed forms tell paths apart that start with a string and have no '.' or '[' in a string |
| EvaluationCache.PrintCollides | dsl_parser/functions.py:131-147 | Each part of that condition is needed |
| EvaluationCache.FaithfulExactly | dsl_parser/functions.py:1301-1307 | Over any sequence of queries all capability answers are storage's if and only if no known path is followed by another that prints the same and has another answer |
| EvaluationCache.AlwaysFaithfulExactly | dsl_parser/functions.py:1301-1307 | They are storage's whatever it holds if and only if no two different paths asked print the same |
| EvaluationCache.PrintableFaithful | dsl_parser/functions.py:1301-1307 | They are, whatever storage holds, when all paths are as in PrintInjective |
| EvaluationCache.RuntimeEvaluationHandler.GetNode | dsl_parser/functions.py:1275-1279 | The answer is storage's, whatever was asked before, and storage is asked only for a node that it has not answered yet |
| EvaluationCache.RuntimeEvaluationHandler.GetSecret | dsl_parser/functions.py:1295-1299 | The answer is storage's, whatever was asked before, and storage is asked only for a secret that it has not answered yet |
| EvaluationCache.RuntimeEvaluationHandler.GetNodeInstances | dsl_parser/functions.py:1281-1287 | The answer is storage's, storage is asked only for a node that it has not answered yet, and every listed instance, and no other, is cached under its id |
| EvaluationCache.RuntimeEvaluationHandler.GetNodeInstance | dsl_parser/functions.py:1289-1293 | The answer is storage's, or an instance that storage lists under that id; storage's own if its two views agree; it is asked only for an instance that it has neither given nor listed yet |
| EvaluationCache.RuntimeEvaluationHandler.GetCapability | dsl_parser/functions.py:1301-1307 | The answer is storage's for the first path asked that prints the same and was known, and storage is asked again only if there is none |
| Schema.Merge | dsl_parser/utils.py:120-175 | The loop over the schema computes the recursive merge, with the same errors in the same order |
| Schema.Parse | dsl_parser/utils.py:177-255 | Parsing by type terminates on data types that do not contain themselves |
| Schema.MergeExactly | dsl_parser/utils.py:120-175 | A merge returns m if and only if each property is either missing from it, unset and not needed, or parsed from its value |
| Schema.MergeProvenance | dsl_parser/utils.py:120-175 | No key that the user wrote is dropped; each value is parsed from the user's, else from the default |
| Schema.DefaultsFrom | dsl_parser/utils.py:81-86 | The default of a key is the derived value's, else the one the data type's schema gives |
| Schema.ParseConforms | dsl_parser/utils.py:177-255 | What is returned conforms to the declared type at every depth, or is an intrinsic function |
| Schema.ConformingUnchanged | dsl_parser/utils.py:177-255 | A conforming value is returned as it is |
| Schema.FixedExactly | dsl_parser/utils.py:177-255 | The values that parsing leaves alone are exactly the conforming ones |
| Schema.ParseIdempotent | dsl_parser/utils.py:177-255 | Parsing the result again changes nothing |
| Schema.AcceptedExactly | dsl_parser/utils.py:187-216 | For each kind of value, which primitive types accept it; whatever is accepted stays as it is |
| Schema.CallsExactly | dsl_parser/functions.py:123-128 | A function call is exactly a dictionary with the name of a function as its only key |
| Schema.FirstErrorExactly | dsl_parser/utils.py:120-175 | A merge is refused exactly with what is wrong with the first property, in the schema's order, with which something is wrong |
| Schema.CastAccepted | dsl_parser/utils.py:258-277 | What has been converted to a type is accepted for it, and converting it again changes nothing |
| OptimisticUpdate.SimpleMerge | cloudify/conflict_handlers.py:17-30 | The merge fails exactly when some key has two values, and else is the union |
| OptimisticUpdate.RunInv | cloudify/context.py:398-424 | In every interleaving of writers: each version extends the one it replaced, and each writer's data stems from the version it holds |
| OptimisticUpdate.NoLostUpdates | cloudify/context.py:398-424 | Every version ever stored, and all that a writer whose update went through had, is in the current properties |
| OptimisticUpdate.RetriesBounded | cloudify/context.py:398-424 | A writer retries at most once for each version that others made since it first fetched |
| OptimisticUpdate.ConflictRetried | cloudify/context.py:404-421 | A conflict is not the end: if its properties can be merged with the current ones, a writer with an outdated version goes through by steps of its own, and exactly the merge becomes the next version |
| OptimisticUpdate.Update | cloudify/context.py:404-421 | The loop, against a record of what it asked of storage: one request for each fetch, over the version fetched last and with the own properties merged into those fetched; after a conflict, and only then, it fetches and tries again; it raises exactly if the last answer was another error, gives up exactly if what was fetched last cannot be merged, and ends well exactly if the last request was accepted. Storage only grows, and each retry is paid for by another writer's update |
| OptimisticUpdate.GoesThrough | cloudify/context.py:404-421 | So without other errors, and with properties that can be merged, the update goes through |
| RuntimeProperties.DirtyTrackingDict.Apply | cloudify/manager.py:465-507 | A dictionary that may not be modified never becomes dirty, though the refused change stays in it; every tracked change to a modifiable one makes it dirty; setdefault escapes both; what raises by itself changes nothing |
| RuntimeProperties.ChangedExactly | cloudify/manager.py:465-507 | What every key holds after each kind of change, and that exactly deleting a missing key and popping from an empty dictionary raise |
| RuntimeProperties.NodeInstanceContext.Refresh | cloudify/context.py:426-438 | Refused exactly for local changes without force; else storage's properties are fetched |
| RuntimeProperties.NodeInstanceContext.Update | cloudify/context.py:421-424 | Sends exactly when dirty, and is refused, changing nothing, exactly when storage has another version by then; otherwise a modifiable context's tracked changes are all sent |
| RuntimeProperties.UntrackedChangeIsLost | cloudify/manager.py:465-507 | A key added with setdefault alone is lost by the next update |
| WorkerPool.RunInv | cloudify/amqp_client.py:403-465 | In every interleaving: free permits, workers and lost slots add up to the pool size; each delivery is in exactly one of in delivery, buffered, running, done; buffered tasks leave in their order |
| WorkerPool.HandlersBounded | cloudify/amqp_client.py:375-465 | Never more handlers run than the pool has slots, less the free and the lost ones |
| WorkerPool.AcknowledgedInOrder | cloudify/amqp_client.py:416-448 | In every run a task is acknowledged before it is handled, or after, as the consumer is set, and replied to after both; a worker that has finished has done all three |
| WorkerPool.WorkerEnds | cloudify/amqp_client.py:416-448 | A worker never ends by handling its task; it loses its slot exactly if it dies acknowledging or replying |
| WorkerPool.NoIdleRun | cloudify/amqp_client.py:403-465 | If buffering a refused delivery and a worker's last exit are both uninterrupted, no task waits beside a free slot |
| WorkerPool.NoIdleSlotExactly | cloudify/amqp_client.py:403-465 | That holds in all runs, for every pool size, if and only if both are uninterrupted; the source guarantees neither |
| WorkerPool.DelayedBuffering | cloudify/amqp_client.py:403-414 | The run that refutes it when buffering can be delayed |
| WorkerPool.DelayedRelease | cloudify/amqp_client.py:450-465 | The run that refutes it when only releasing can be delayed |
| PublishQueue.RunInv | cloudify/amqp_client.py:176-283 | Over any sequence of connection losses and reconnections each scheduled envelope is in exactly one of queued, in flight, sent, failed, dropped, and each waiting caller has exactly the one reply due to it |
| PublishQueue.SentInOrder | cloudify/amqp_client.py:251-283 | The queue is first in, first out in every run: what was put there, scheduled or queued again after a loss, is in order what was taken and then what is still queued, and the envelope taken last is the one being sent |
| PublishQueue.LeavesLoop | cloudify/amqp_client.py:213-229 | By each event the loop is left exactly as it should be: to drain, to connect again, or for good |
| PublishQueue.NeverBack | cloudify/amqp_client.py:213-229 | Once the queue is being drained no connection is opened any more |
| PublishQueue.NothingLostWhileOpen | cloudify/amqp_client.py:251-283 | Before the connection is closed everything scheduled is queued, in flight, sent, or reported as failed |
| PublishQueue.NothingDroppedWhileOpen | cloudify/amqp_client.py:251-283 | Envelopes are dropped only once closed |
| PublishQueue.FatesFinal | cloudify/amqp_client.py:251-283 | What was sent, failed or dropped stays so |
| PublishQueue.DrainedIsSettled | cloudify/amqp_client.py:213-229 | If the thread ends by draining the queue, everything scheduled by then is sent, failed or dropped |
| PublishQueue.LeftBehind | cloudify/amqp_client.py:176-283 | The thread ends exactly when the queue is drained, a connection cannot be opened or set up, an error other than a lost connection or, from the loop, a closed channel occurs, or a loss or any error occurs while draining; but for draining it leaves behind all that was queued, and with it an envelope whose connection was lost |
| PublishQueue.EndedKeeps | cloudify/amqp_client.py:213-283 | What is queued once the thread has ended stays queued for good, together with exactly what is scheduled later, and no caller gets a reply any more |
| PublishQueue.CloseStaysExactly | cloudify/amqp_client.py:176-229 | In any run a close stays in force if and only if no connection is opened after it: not by a first connect, nor by one after a loss, wherever that was |
| PublishQueue.FinalExactly | cloudify/amqp_client.py:201-229 | In whatever state the thread is, a close made in it is in force for good if and only if the thread has left its loop: otherwise some continuation undoes it |
| PublishQueue.ClosedCanMove | cloudify/amqp_client.py:176-229 | Once closed, the thread can always take a step of its own until it has ended; but while it opens a connection each such step forgets the close or ends the thread with the failure to connect |
| PublishQueue.JoinIsBounded | cloudify/amqp_client.py:176-229 | While the close stays in force, whoever joins the thread waits for a bounded number of its steps: two for each envelope queued at the close or scheduled since, and at most three more |
| PublishQueue.CloseForgotten | cloudify/amqp_client.py:176-229 | For any number of steps there are runs from the start in which a close is undone, before the first connection and while another one is opened after a loss during sending, and the thread goes on without ending or replying to a waiting caller |
| WorkflowRunner.WorkflowApi.SetKillRequest | cloudify/workflows/workflow_api.py:33-40 | A kill request sets both flags |
| WorkflowRunner.SetFlags | cloudify/dispatch.py:247-268 | The setters called for a status seen lead the flags through exactly the flag steps of the state machine that this status calls for |
| WorkflowRunner.RunInv | cloudify/dispatch.py:201-300 | In every interleaving of parent, child and status changes the reports, messages and flags belong together |
| WorkflowRunner.OneFinalReport | cloudify/dispatch.py:201-300 | Exactly one of TERMINATED, FAILED and CANCELLED is reported, as the last report, when the run is over, and none before |
| WorkflowRunner.TerminatedMeansResult | cloudify/dispatch.py:201-300 | TERMINATED only if the child returned a result that is not the cancelled one |
| WorkflowRunner.KillImpliesCancel | cloudify/workflows/workflow_api.py:26-60 | In every reachable state a kill request is also a cancel request |
| WorkflowRunner.Monotone | cloudify/workflows/workflow_api.py:26-60 | Neither flag is ever cleared, and no report is taken back |
| WorkflowRunner.PlainRequestsKeepWaiting | cloudify/dispatch.py:228-287 | A plain cancelling status alone never ends the parent's loop |
| WorkflowRunner.CancelledHasCause | cloudify/dispatch.py:201-287 | CANCELLED has one of three causes earlier in the run: a refused start, a cancelled result, a forced or kill status that was seen |
| WorkflowRunner.FinalReportExactly | cloudify/dispatch.py:208-287 | When a run is over: TERMINATED was reported exactly if the child's result was received, FAILED exactly if its error was or a poll failed, CANCELLED after a start exactly if the cancelled result was received or a forced request was seen, and CANCELLED alone exactly if the start was refused |
| WorkflowRunner.FailedHasCause | cloudify/dispatch.py:281-287 | FAILED is reported only after an error of the child was received or a poll failed |
| WorkflowRunner.MessageIsNext | cloudify/dispatch.py:222-236 | A message of the child that is there while the parent waits is received before the parent polls again |
| WorkflowRunner.RequestsReachExactly | cloudify/dispatch.py:243-268 | Whenever the parent is not in the middle of dealing with a status, the workflow is asked to cancel exactly if some poll has found a request of any kind, and to stop at once exactly if one has found a kill request |
| TaskGraphs.TaskDependencyGraph.AddDependency | cloudify/workflows/tasks_graph.py:258-276 | The edge is added to both directions of the relation, unless it is a loop; unknown tasks are refused |
| TaskGraphs.HookedAcyclicExactly | cloudify/plugins/lifecycle.py:380-392 | Hooking a subgraph in before another keeps the graph executable if and only if the first does not wait for the second, nor anything the second depends on for the first |
| TaskGraphs.HookedRunsBetween | cloudify/plugins/lifecycle.py:380-392 | In every valid order it then comes after all that the other depends on, and before the other |
| TaskGraphs.ApartCanGoBefore | cloudify/plugins/lifecycle.py:380-392 | A fresh subgraph, on which only its own members depend, always can go before |
| TaskGraphs.SequencedExactly | cloudify/workflows/tasks_graph.py:411-447 | In a subgraph's sequence each task waits for the subgraph and for the task before it, and for nothing else |
| TaskGraphs.TaskDependencyGraph.RunSubgraphBefore | cloudify/plugins/lifecycle.py:380-392 | Exactly the edges of the hooked graph are added |
| TaskGraphs.TaskDependencyGraph.UpdateResumedInstall | cloudify/plugins/lifecycle.py:145-179 | Exactly these edges are added: each cleanup's sequence of new tasks, its install's edge to it, and its own edges to all that the install waited for by then; the graph stays executable |
| TaskGraphs.ResumedCleansUp | cloudify/plugins/lifecycle.py:145-179 | So however many cleanups are hooked in, each install waits for its cleanup, and each cleanup for all that its install waited for |
| Lifecycle.LifecycleProcessor.HandleDependencyCreation | cloudify/plugins/lifecycle.py:238-265 | Without an operation one edge; with one, an edge to each dependent of the first task that runs it for the instance, and none if no task does |
| Lifecycle.LifecycleProcessor.AddDependencies | cloudify/plugins/lifecycle.py:267-300 | The links of all instances whose targets take part, followed in order, in reverse order on uninstall |
| Lifecycle.LifecycleProcessor.FinishSubgraphs | cloudify/plugins/lifecycle.py:213-236 | The links of the processed instances, then those of the intact ones |
| Lifecycle.WantedExactly | cloudify/plugins/lifecycle.py:267-300 | Which pairs of instances are linked: a declared relationship whose target takes part |
| Lifecycle.UninstallTransposes | cloudify/plugins/lifecycle.py:267-300 | Without operations, uninstall adds the exact transpose of what install adds |
| Lifecycle.AllFollowedExactly | cloudify/plugins/lifecycle.py:239-265 | With operations as well: every edge there at the end was there before or is asked for by a relationship, for the subgraph at its other end or for a task that waits for the first one that runs the operation there; and whatever is asked for by the edges of the start is added |
| Lifecycle.FollowedBackwards | cloudify/plugins/lifecycle.py:272-275 | On uninstall the relationships of an instance are followed in the reverse order |
| Lifecycle.UninstallReversesInstall | cloudify/plugins/lifecycle.py:267-300 | An order of the instances is valid for install if and only if the reversed order is valid for uninstall |
| PathAccess.PathDictAccess.Get | cloudify/proxy/server.py:260-286 | The loop reads the path, or raises where it cannot go on |
| PathAccess.PathDictAccess.Set | cloudify/proxy/server.py:256-258 | The write, including the dictionaries created before a failure |
| PathAccess.SplitJoin | cloudify/proxy/server.py:288-296 | Joining the parents' segments and splitting them again gives them back |
| PathAccess.SelectsExactly | cloudify/proxy/server.py:252-285 | A segment is a plain key exactly if nowhere in it, after at least one character and no line break, a number in brackets stands; else the last such place is the index, whatever follows it |
| PathAccess.IndexReads | cloudify/proxy/server.py:267-285 | A name with a number n in brackets, in decimal notation, reads element n of the list of that name, and fails if there is none |
| PathAccess.WritesExactly | cloudify/proxy/server.py:260-298 | A write succeeds if and only if the way there leads to a dictionary, or to one from which on only plain keys are missing |
| PathAccess.ReadBackExactly | cloudify/proxy/server.py:249-296 | After a successful set, get of the same path returns the value if and only if the last segment has no index form, or the value was there before |
| PathAccess.LastWriteWins | cloudify/proxy/server.py:249-296 | A second set of the same path wins, as if the first had not been |
| PathAccess.DivergingUnchanged | cloudify/proxy/server.py:249-296 | A set, successful or not, changes nothing that is read along a path that diverges from it |
| PathAccess.FailurePads | cloudify/proxy/server.py:249-296 | A failing set adds at most empty dictionaries along its way |

## Left out

- host ids: the host_id that instances inherit from the compute node holding them is not modelled.
- instance ids: the text of an id (a node name and random characters, drawn again until unused) is not modelled; ids are distinct natural numbers, a new one being any number not used yet. The drawing loop has no bound in the source.
- graph library: networkx graphs are node and edge maps; topological sorting and the search for connected components are given by what they compute. Containment trees stand for the connected components that the expansion visits.
- Forks.BuildTree: an instance is named by the steps that lead to it; the root of each connected part is an input, and only fresh deployments are expanded this way.
- MemberCheck.CheckPairs: the checks before it, that groups do not contain each other and that members are in one group, are part of PlanBuilder.Validated; error messages are left out.
- Redeployment.ModifyNodes: the two lists of nodes share no node.
- Deployments.ExpandModified: the source raises as soon as a kept instance lacks its record; the model notes it, expands the rest, and hands out no graph.
- MultiInstance.CreateDeploymentPlan: of the plan only nodes, relationships and scaling groups are modelled; properties and policies are not. The precondition is the exact condition of PlanBuilder.BuiltIsValid, and nonempty target names, without which restoring does not undo the redirection; members that are groups without a scaling policy, which have no node in the graph, are outside it.
- Redeployment.ModifyDeployment: the instances it starts from are those of a deployment that extraction can read, such as a created one; that a deployment stays readable after a modification is not proved. The report names nodes and edges; of reading the changed instances out of it only the failure for lack of data is modelled.
- Extraction.ExtractNodeInstances: instances handed out only because an added or removed instance is contained in them are not modelled; neither is the deep copying.
- GraphDiff.GraphDiff: attributes of nodes are reduced to the modification mark; sharing of attribute records between graphs is modelled for marks only.
- Resolution.ResolveByName: the attribute path below the instance, and get_attributes_list and get_attributes_dict, are not modelled.
- EvaluationCache.RuntimeEvaluationHandler.GetCapability: group and environment capabilities have the same code over caches of their own and are left out; the labels cache is left out too, its key being ambiguous between a label and a label with an index. Path elements other than strings and integers are not modelled.
- evaluation: the loop that evaluates functions until nothing changes, which need not end, and the recursion limit are not modelled.
- Schema.ParseValue: floats are reals, regular expressions are given by which strings compile; error messages and the merging of two schemas are left out.
- OptimisticUpdate.NoLostUpdates: writers only add keys, as the handler's guarantee supposes.
- RuntimeProperties.DirtyTrackingDict.Apply: changes inside nested values, which no dictionary notices, are left out.
- WorkerPool.RunInv: stopping the agent from within a task, and parsing errors that reject a delivery, are left out; the connection thread hands over one delivery at a time.
- PublishQueue.RunInv: the broker is any environment that may close the connection or the channel at any call; the attempts to connect before one succeeds, or all have failed, are no steps of their own, and the caller's timeout and the event that tells that a connection is there are left out.
- WorkflowRunner.RunInv: failing calls that report a status, and workflows that run locally, are left out.
- Lifecycle.LifecycleProcessor.FinishSubgraphs: the same tasks are left out.
- Lifecycle.LifecycleProcessor.AddDependencies: the establish and unlink tasks that the callback adds for intact instances, and the tasks inside the subgraphs, are left out; with an "operation" property what is added is stated exactly, and no transposition is claimed.
- TaskGraphs.TaskDependencyGraph.UpdateResumedInstall: which instances get a cleanup, by their state and pending operation, and of how many tasks, is an input.
- TaskGraphs.TaskDependencyGraph.RunSubgraphBefore: the check that both subgraphs are in one graph is left out; there is one graph. Executing, storing and resuming the graph are left out.
- PathAccess.PathDictAccess.Set: properties are trees, so no two paths share a dictionary; all failures are one failure; digits are the ten ASCII ones.
- REST client, brokers, proxies, logging, plugin installation, file handling and the command line are left out: they are input and output around what is modelled.
