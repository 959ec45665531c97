# OpenTripPlanner graph store and pre-alight edge, modelled in Dafny

This project models two parts of OpenTripPlanner's routing layer and proves properties of them.

**The graph store (`Graph`).** This is the container that holds the street and transit graph.
- **Label map.** Each vertex is filed under its label. The model covers `addVertex`, `removeVertex`, `remove`, `containsVertex`, `removeVertexAndEdges` and `removeEdgelessVertices`.
- **Edge lists.** Each vertex object owns its incoming and outgoing edge lists. The model keeps them as two maps from vertex to edge set (`incoming`, `outgoing`), fields of the `Graph` class.
- **Derived indices.** `rebuildVertexAndEdgeIndices` and `addEdgesToIndex` rebuild `vertexById` and `edgeById`.
- **Counts.** `countEdges` and `getEdges`.
- **Temporary edges and agencies.**
- **Builder-annotation log.** The log may be null, modelled as `None`.
- **Transit feed validity window.** `updateTransitFeedValidity` computes it and `transitFeedCovers` tests it.
- **Version gate.** `graphVersionMismatch` decides whether a stored graph may be loaded.
- **Saving and loading.** What `save` writes and how `load` consumes it at each `LoadLevel`. Loading rebuilds the label map from the endpoints of the saved edges.

**The pre-alight edge (`PreAlightEdge`).** This edge leads from a stop's arrival vertex to the transit stop itself.
- **Searching backwards (arrive-by).** It applies the local-stop rules, the transfer limit, the boarding slack, the transfer table (no rule, minimum time, timed, forbidden, preferred, or an undefined value that raises an error) and the two transfer penalties.
- **Searching forwards.** It adds the alighting slack and some bookkeeping.
- **Heuristic traversal.** It records only the mode (`getMode`, always ALIGHTING, is `PreAlight.Mode`).

Files:
- `wrappers.dfy`: `Option` and `Result`.
- `graph_model.dfy` (module `GraphModel`):
  - the values: vertices, edges, edge lists, annotations, versions and saved records;
  - the specification functions over them;
  - the lemmas that relate those functions.
- `graph_store.dfy` (module `GraphStore`): the `Graph` class, its methods, the loops that `Graph.java` runs, and the save-then-load round trip.
- `pre_alight_edge.dfy` (module `PreAlight`): traversal as pure functions from a state to an outcome, with reference definitions of the deadline and of the two penalties.

How Java is represented:
- **Vertices.** A vertex is a value `Vertex(name, index)`. `name` is the label. `index` is the construction index from the process-wide counter, so it tells two vertex objects apart.
- **Edges.** An edge is a value `Edge(id, from, to)` whose endpoints may be null (`None`).
- **Failures.** A Java exception is an explicit outcome:
  - `removeVertexAndEdges` returns `ok == false`;
  - `load` returns a `Result` with a `LoadError`;
  - traversal returns `UndefinedTransferValue`.
- **Inputs made into parameters.** The wall clock (`now`) and the calendar data are parameters. So is the time `StateEditor.alightTransit` records.

## Model

| member | source | states |
|---|---|---|
| GraphStore.Graph.constructor | opentripplanner-routing/src/main/java/org/opentripplanner/routing/graph/Graph.java:83-132 | A new graph is empty, keeps annotations, has debug data, and its validity window (starts at Long.MAX_VALUE, ends at 0) covers no instant at all. |
| GraphStore.Graph.Deserialized | opentripplanner-routing/src/main/java/org/opentripplanner/routing/graph/Graph.java:382-387 | A graph read back keeps the modelled header fields (version, validity window, debug flag, agencies and agency ids), gets a fresh empty temporary-edge set, and has no annotation log. |
| GraphStore.Graph.AddVertex | opentripplanner-routing/src/main/java/org/opentripplanner/routing/graph/Graph.java:150-158 | Afterwards the label maps to v and v is contained; no other label changes; a repeated vertex or a clashing label never fails, it is only reported. |
| GraphStore.Graph.RemoveVertex | opentripplanner-routing/src/main/java/org/opentripplanner/routing/graph/Graph.java:167-173 | v's label leaves the map whatever it held; the result says whether that was v itself (otherwise Java logs an error). |
| GraphStore.Graph.ContainsVertex | opentripplanner-routing/src/main/java/org/opentripplanner/routing/graph/Graph.java:236-238 | True only for a non-null vertex among the map's values, and, in a graph whose labels are consistent, for every such vertex. |
| GraphStore.Graph.Remove | opentripplanner-routing/src/main/java/org/opentripplanner/routing/graph/Graph.java:254-256 | Only v's label leaves the map, and v is no longer contained. |
| GraphStore.Graph.RemoveVertexAndEdges | opentripplanner-routing/src/main/java/org/opentripplanner/routing/graph/Graph.java:258-270 | Fails, changing nothing, exactly when v is not contained. Otherwise v's label is gone, v's former edges leave the temporary-edge set and every other vertex's lists, and v has no edges. The lists stay consistent. |
| GraphStore.Graph.RemoveAllEdges | opentripplanner-routing/src/main/java/org/opentripplanner/routing/graph/Graph.java:268 | v's lists become empty, each other list loses exactly v's former edges, and the lists stay consistent. |
| GraphModel.DetachKeepsConsistency | opentripplanner-routing/src/main/java/org/opentripplanner/routing/graph/Graph.java:268 | Detaching a vertex from the lists of both its directions keeps every edge in the outgoing list of its source exactly when it is in the incoming list of its target. |
| GraphStore.Graph.CountEdges | opentripplanner-routing/src/main/java/org/opentripplanner/routing/graph/Graph.java:334-340 | The loop's result is the sum of out-degrees, and in a consistent graph it is the number of distinct edges getEdges returns. |
| GraphModel.SumOutDegreesCountsEdges | opentripplanner-routing/src/main/java/org/opentripplanner/routing/graph/Graph.java:329-340 | When each outgoing list holds only edges starting at its vertex, the sum of out-degrees equals the number of distinct edges in the outgoing lists: no edge is counted twice. |
| GraphModel.SumOutDegreesSplit | opentripplanner-routing/src/main/java/org/opentripplanner/routing/graph/Graph.java:334-340 | The sum of out-degrees does not depend on the order in which the vertices are visited. |
| GraphStore.Graph.GetEdges | opentripplanner-routing/src/main/java/org/opentripplanner/routing/graph/Graph.java:219-225 | The result is the union of the outgoing lists of the vertices in the label map. |
| GraphStore.Graph.AddEdgesToIndex | opentripplanner-routing/src/main/java/org/opentripplanner/routing/graph/Graph.java:346-350 | Each given edge is filed under its id, with one entry per id among them. Ids not among them keep their entry. |
| GraphStore.Graph.RebuildVertexAndEdgeIndices | opentripplanner-routing/src/main/java/org/opentripplanner/routing/graph/Graph.java:362-380 | vertexById is keyed by exactly the indices of the label map's vertices, and files each vertex under its index (each one found again when indices are distinct). edgeById is keyed by exactly the ids of the edges in some outgoing list and holds only those edges. |
| GraphModel.VertexIndexStep | opentripplanner-routing/src/main/java/org/opentripplanner/routing/graph/Graph.java:364-367 | Filing one more vertex under its index extends the vertex index to that vertex's label. |
| GraphModel.EdgeIndexExtend | opentripplanner-routing/src/main/java/org/opentripplanner/routing/graph/Graph.java:369-379 | Filing one more outgoing list into an edge index gives an index of both edge sets. |
| GraphStore.Graph.EdgelessVertices | opentripplanner-routing/src/main/java/org/opentripplanner/routing/graph/Graph.java:617-620 | The collected list names exactly the labels whose vertex has in-degree plus out-degree 0, each once. |
| GraphModel.ListsEdgelessStep | opentripplanner-routing/src/main/java/org/opentripplanner/routing/graph/Graph.java:619-620 | Visiting one more vertex appends it exactly when its degree is 0, keeping the list exact and free of repeats. |
| GraphStore.Graph.RemoveEdgelessVertices | opentripplanner-routing/src/main/java/org/opentripplanner/routing/graph/Graph.java:615-628 | Returns the number of vertices whose degree was 0, and leaves the label map without exactly those. |
| GraphModel.WithoutEdgelessKeepsEdgedVertices | opentripplanner-routing/src/main/java/org/opentripplanner/routing/graph/Graph.java:615-628 | After pruning, a label remains iff its vertex has an edge, remaining vertices are untouched, nothing edgeless is left, and pruning again changes nothing. |
| GraphModel.WithoutEdgelessIsRemoval | opentripplanner-routing/src/main/java/org/opentripplanner/routing/graph/Graph.java:621-625 | Removing the edgeless labels one by one gives the pruned label map. |
| GraphStore.Graph.AddTemporaryEdge | opentripplanner-routing/src/main/java/org/opentripplanner/routing/graph/Graph.java:643-645 | The edge joins the temporary-edge set; nothing else changes. |
| GraphStore.Graph.RemoveTemporaryEdge | opentripplanner-routing/src/main/java/org/opentripplanner/routing/graph/Graph.java:647-652 | A no-op when either endpoint is null; otherwise exactly that edge leaves the set. |
| GraphStore.Graph.AddAgency | opentripplanner-routing/src/main/java/org/opentripplanner/routing/graph/Graph.java:638-641 | The agency joins the agency set and its id joins the id set. |
| GraphStore.Graph.AddBuilderAnnotation | opentripplanner-routing/src/main/java/org/opentripplanner/routing/graph/Graph.java:397-402 | Always returns the annotation's message; appends the annotation when the log exists and leaves a missing log missing. |
| GraphModel.AppendLog | opentripplanner-routing/src/main/java/org/opentripplanner/routing/graph/Graph.java:399-400 | Appending keeps the old log as a prefix and adds exactly the new annotations after it; a missing log stays missing. |
| GraphModel.AppendLogTwice | opentripplanner-routing/src/main/java/org/opentripplanner/routing/graph/Graph.java:305-309 | Appending annotations one call at a time is the same as appending them all at once. |
| GraphStore.Graph.UpdateTransitFeedValidity | opentripplanner-routing/src/main/java/org/opentripplanner/routing/graph/Graph.java:285-310 | The new start is the least of the old start and every service date; the new end is the greatest of the old end and every date plus a day; so the window covers every service day. The log gains one NoFutureDates annotation for exactly each agency with no date after now. |
| GraphStore.Graph.TransitFeedCovers | opentripplanner-routing/src/main/java/org/opentripplanner/routing/graph/Graph.java:313-315 | The window is half-open, [starts, ends): an empty window, such as a new graph's (see the constructor), covers no instant. |
| GraphStore.CoversWholeDay | opentripplanner-routing/src/main/java/org/opentripplanner/routing/graph/Graph.java:297-302 | A window that starts by a day's first second and ends no earlier than a day later covers every second of that day, and never the instant it ends at. This is what the bounds UpdateTransitFeedValidity sets give each service day. |
| GraphStore.WidenOverDates | opentripplanner-routing/src/main/java/org/opentripplanner/routing/graph/Graph.java:292-302 | Over one service id's dates: the window comes to span each date's day, moves only to a date's bounds, and the flag says whether some date is after now. |
| GraphStore.Graph.AnnotateAgenciesWithoutFutureDates | opentripplanner-routing/src/main/java/org/opentripplanner/routing/graph/Graph.java:305-309 | The log is extended by one NoFutureDates annotation per agency that has no future dates, and by nothing else. |
| GraphModel.FlagsExactlyStep | opentripplanner-routing/src/main/java/org/opentripplanner/routing/graph/Graph.java:306-307 | Visiting one agency annotates it exactly when it has no future dates, keeping the added annotations one per such agency. |
| GraphModel.FlaggedAgenciesAppend | opentripplanner-routing/src/main/java/org/opentripplanner/routing/graph/Graph.java:307 | Appending an annotation flags at most its own agency. |
| GraphModel.HasDateAfterAppend | opentripplanner-routing/src/main/java/org/opentripplanner/routing/graph/Graph.java:293-296 | A date list has a date after now iff its prefix does or the new date does. |
| GraphModel.AgenciesAmongAdd | opentripplanner-routing/src/main/java/org/opentripplanner/routing/graph/Graph.java:290-296 | Visiting one more service id adds its agency to the agencies seen, and to those with future dates exactly when one of its dates is after now. |
| GraphModel.WindowSpansAdd | opentripplanner-routing/src/main/java/org/opentripplanner/routing/graph/Graph.java:297-302 | A window that spans the dates seen so far, widened over one more id, spans them all. |
| GraphModel.GraphVersionMismatch | opentripplanner-routing/src/main/java/org/opentripplanner/routing/graph/Graph.java:511-535 | A different version is always refused. With equal commits, or a running SNAPSHOT build, exactly different versions are refused. |
| GraphModel.VersionGate | opentripplanner-routing/src/main/java/org/opentripplanner/routing/graph/Graph.java:511-535 | Refused iff the versions differ, or the commits differ and the running qualifier is not SNAPSHOT. A build never refuses its own graphs. |
| GraphStore.Graph.ConsolidateEdges | opentripplanner-routing/src/main/java/org/opentripplanner/routing/graph/Graph.java:555-562 | The consolidated edge list holds exactly the edges of the outgoing lists, and is as long as countEdges. |
| GraphStore.AddAll | opentripplanner-routing/src/main/java/org/opentripplanner/routing/graph/Graph.java:559 | Appending a set keeps the list as a prefix, adds each element once, and adds nothing else. |
| GraphStore.Graph.Save | opentripplanner-routing/src/main/java/org/opentripplanner/routing/graph/Graph.java:552-578 | Writes the graph object, then the consolidated outgoing edges. Only with debug data does it also write the annotation log, vertexById and edgeById, in that order. The indices are freshly rebuilt. |
| GraphStore.Graph.ReadEdges | opentripplanner-routing/src/main/java/org/opentripplanner/routing/graph/Graph.java:469-475 | Succeeds iff no saved edge has a null endpoint. The label map is then rebuilt from the endpoints, and the edge lists are restored and consistent. |
| GraphModel.EndpointMapFilesEndpoints | opentripplanner-routing/src/main/java/org/opentripplanner/routing/graph/Graph.java:469-475 | The rebuilt label map holds exactly the endpoints' labels, each filed under an endpoint carrying it. |
| GraphModel.RestoredListsConsistent | opentripplanner-routing/src/main/java/org/opentripplanner/routing/graph/Graph.java:469-475 | Edge lists restored from a loaded edge list are consistent. |
| GraphStore.Graph.ReadBody | opentripplanner-routing/src/main/java/org/opentripplanner/routing/graph/Graph.java:466-497 | After the graph object: on success the label map and lists come from the edge list and the indices are rebuilt. FULL stops there. DEBUG reads the annotation log exactly when the graph has debug data. FULL fails exactly when an edge has a null endpoint. |
| GraphStore.Graph.Load | opentripplanner-routing/src/main/java/org/opentripplanner/routing/graph/Graph.java:457-502 | A mismatched version is refused, exactly then. BASIC returns the graph object alone. FULL and DEBUG rebuild the label map from the edge endpoints and rebuild the indices. DEBUG also reads the annotation log only with debug data. A short or wrong stream is an error. |
| GraphModel.LoadRebuildsVerticesWithEdges | opentripplanner-routing/src/main/java/org/opentripplanner/routing/graph/Graph.java:555-562 | For a consistent graph whose edges stay among its vertices, the label map load rebuilds from what save writes is exactly the old map without its edgeless vertices. |
| GraphModel.SavedEndpointHasEdge | opentripplanner-routing/src/main/java/org/opentripplanner/routing/graph/Graph.java:555-562 | Every endpoint of the saved edge list is a label-map vertex with an edge. |
| GraphModel.VertexWithEdgeIsSaved | opentripplanner-routing/src/main/java/org/opentripplanner/routing/graph/Graph.java:555-562 | Every label-map vertex with an edge is an endpoint of the saved edge list. |
| GraphModel.LoadKeepsEdges | opentripplanner-routing/src/main/java/org/opentripplanner/routing/graph/Graph.java:469-475 | After a round trip, the edges reached through the rebuilt label map are the saved ones, and countEdges is unchanged. |
| GraphModel.RestoredEdgesAreLoaded | opentripplanner-routing/src/main/java/org/opentripplanner/routing/graph/Graph.java:469-475 | When no two endpoints share a label, the restored outgoing lists reached through the rebuilt map hold exactly the loaded edges. |
| GraphStore.SaveThenLoad | opentripplanner-routing/src/main/java/org/opentripplanner/routing/graph/Graph.java:457-578 | For a consistent graph whose edges stay among its vertices, save followed by load(FULL) in the same build succeeds. The header comes back unchanged, the label map comes back without its edgeless vertices, and the edges and countEdges are unchanged. |
| PreAlight.NewPreAlightEdge | opentripplanner-routing/src/main/java/org/opentripplanner/routing/edgetype/PreAlightEdge.java:38-42 | An edge is made exactly when the target is a transit stop, and it joins the given vertices. |
| PreAlight.ApplyTransferTable | opentripplanner-routing/src/main/java/org/opentripplanner/routing/edgetype/PreAlightEdge.java:76-120 | A transfer is refused exactly when the entry is forbidden, and faults exactly when the entry is undefined. Otherwise the deadline is the slack deadline, made earlier only by a minimum-time entry, and the table penalty is the non-preferred penalty exactly in the reference cases. |
| PreAlight.TraverseArriveBy | opentripplanner-routing/src/main/java/org/opentripplanner/routing/edgetype/PreAlightEdge.java:51-135 | No state iff the state is blocked (no transit, alighted local, a local stop after boarding, too many boardings) or the transfer is forbidden, whatever the table says. An error iff the entry is undefined. The successor's time is the deadline, no later than t0 - slack. Its weight grows by exactly the wait plus the table and flat penalties. It has boarded, its mode is ALIGHTING, and nothing else changes. |
| PreAlight.TraverseDepartAt | opentripplanner-routing/src/main/java/org/opentripplanner/routing/edgetype/PreAlightEdge.java:136-147 | Never refuses. Time advances by exactly the alight slack. It is marked alighted-local iff it was or the stop is local. The alighting is recorded, the mode is ALIGHTING, and nothing else changes. |
| PreAlight.Traverse | opentripplanner-routing/src/main/java/org/opentripplanner/routing/edgetype/PreAlightEdge.java:45-148 | Depart-at always gives a successor. The table error arises only arriving-by on a transfer. Every successor's mode is ALIGHTING. |
| PreAlight.OptimisticTraverse | opentripplanner-routing/src/main/java/org/opentripplanner/routing/edgetype/PreAlightEdge.java:154-160 | Only the back mode changes, to ALIGHTING; time and weight are kept. |
| PreAlight.Mode | opentripplanner-routing/src/main/java/org/opentripplanner/routing/edgetype/PreAlightEdge.java:150-152 | The edge's mode is ALIGHTING; every successor of Traverse and OptimisticTraverse records it as the back mode (their ensures). |
| PreAlight.FirstBoardingIgnoresTable | opentripplanner-routing/src/main/java/org/opentripplanner/routing/edgetype/PreAlightEdge.java:85-120 | With no earlier alighting, any two transfer tables give the same outcome, and the table penalty is 0. |
| PreAlight.PenaltyFreeTransfers | opentripplanner-routing/src/main/java/org/opentripplanner/routing/edgetype/PreAlightEdge.java:88-117 | A timed or preferred transfer, or any transfer in a table without preferred transfers, pays no table penalty. |
| PreAlight.TableDeadlineNeverLater | opentripplanner-routing/src/main/java/org/opentripplanner/routing/edgetype/PreAlightEdge.java:96-103 | A minimum-time rule gives a deadline no later than both the table deadline and the slack deadline. |
| PreAlight.WeightNeverDecreases | opentripplanner-routing/src/main/java/org/opentripplanner/routing/edgetype/PreAlightEdge.java:76-147 | With non-negative slacks and penalties, traversal never lowers the weight; arriving-by it costs at least the slack. |
| PreAlight.OptimisticIsLowerBound | opentripplanner-routing/src/main/java/org/opentripplanner/routing/edgetype/PreAlightEdge.java:154-160 | With non-negative costs, the optimistic weight never exceeds the weight of any successor traverse produces. |

## Left out

- **Vertex and edge objects.**
  - Java vertices own their edge lists. Here the lists are maps held by the graph, and a vertex is identified by its label and index.
  - Object aliasing between vertices, and the `compact` call on loading, are not modelled.
  - A vertex's edge lists are sets here, while Java keeps lists. A Java list holding the same edge twice, which countEdges would count twice, cannot be represented. So the CountEdges statement that the count is the number of distinct edges relies on lists without repeats.
- **Vertex.removeAllEdges and edge construction.** These bodies are not part of this model, and adding edges to a graph (done by edge constructors) is not modelled.
  - `RemoveAllEdges` empties v's lists and takes v's edges out of their other endpoints' lists.
  - Loading restores the edge lists from the saved edge list, standing in for edge deserialisation.
- **MavenVersion.equals.** It is not part of this model. It is taken to compare major, minor, incremental and qualifier, but not the commit, since `graphVersionMismatch` checks the commit separately.
- **Object streams.**
  - The Java object streams, files, class loaders and the deletion of a failed file are left out. A stream is a sequence of records.
  - The `InvalidClassException` handler is left out.
  - `ReadEdges` reports a null endpoint as an error where Java throws a NullPointerException.
- **DEBUG loading.** Save writes `vertexById` and `edgeById` after the annotation log, but DEBUG loading reads only the log. The model does what the code does.
- **Transient fields after a load.**
  - At BASIC level Java leaves `vertices`, `vertexById` and `edgeById` null. The model gives empty maps.
  - The annotation log is `None` after any load except a DEBUG load with debug data.
- **Other serialised fields.** `_services`, `transferTable`, `bundle`, `vertexComparatorFactory` and `stops` are written with the graph object too. The header record holds only the modelled fields, so a load gives these nothing back.
- **Street index, services, calendar and time zone.** `streetIndex` and `indexFactory`, `getExtent`, `putService`/`getService`/`hasService`, `getCalendarService`, `getTimeZone`, `getAllStops`, `summarizeBuilderAnnotations` and the bundle accessors are left out. They depend on foreign services or on floating-point geometry.
- **Plain field reads.** `getVertex`, `getVertices`, `getVertexById`, `getEdgeById`, `countVertices`, `getAgencies`, `getTemporaryEdges` and `getBuilderAnnotations` are reads of the corresponding fields.
- **Logging.** All logging is left out. The error `removeVertex` logs is its `wasMember` result, and the message `addVertex` logs is its `note`.
- **Clock and calendar.** The clock reading and its division to seconds are the parameter `now`. Service dates are given as the epoch second at which each day starts (`CalendarData`).
- **Concurrency.** The concurrent maps are modelled as sequential `map` and `set` values.
- **Iteration order.** The model picks hash-set and hash-map elements in an unspecified order (`:|`).
  - In AddEdgesToIndex, two edges with the same id leave one of them indexed, without saying which.
  - The order of the consolidated edge list is unspecified, and so is which of two vertices sharing a label survives a load.
- **Annotation message.** The NoFutureDates message wording is illustrative. The annotation classes are not part of this model.
- **Integer width.** Java's `long` and `int` are modelled as unbounded integers: the window bounds, times, slacks, penalties and counts. The int overflow that `countEdges` and `removed` could reach, and `+=` on an `int` penalty, are not modelled.
- **Weight type.** The state weight is a Java `double`; the model uses an integer, which represents the whole-second waits and integer penalties the edge adds exactly.
- **StateEditor.** Its body is not part of this model.
  - The successor's vertex, its back-edge link and its back state are not modelled.
  - `alightTransit` is modelled as recording the alighting time it is given (`alightedAt`). Any other effect it has is not modelled.
- **TransferTable.** It is not part of this model.
  - Its sentinel constants are the datatype `TransferTime`, with `UndefinedValue` for any other negative value.
  - A stop pair without an entry is taken to have no rule.
  - `hasPreferredTransfers` is a field of the table value.
- **Transit modes.** `TraverseModeSet.isTransit` is the boolean `transitSelected` of the request.
- **Construction check.** The constructor's check for a non-transit-stop target is modelled on an optional target; Java's static types already rule out a non-null wrong target.
- **toString.** `PreAlightEdge.toString` is left out.
