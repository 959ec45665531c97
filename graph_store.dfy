/**
 * The graph store: the label map of vertices, the edge lists of the vertex objects, the
 * id indices, temporary edges, agencies, the builder-annotation log, the transit feed
 * validity window, and saving to / loading from a stream of records.
 */
module GraphStore {
  import opened Wrappers
  import opened GraphModel

  /** What addVertex logs about the label it fills (it never fails). */
  datatype AddVertexNote = Added | RepeatedVertex | DuplicateLabel

  class Graph {
    /** The build that made this graph. */
    const mavenVersion: MavenVersion

    /** The transit feed validity window, in seconds since the epoch. */
    var transitServiceStarts: int
    var transitServiceEnds: int

    /** The label map; rebuilt from the edges on load. */
    var vertices: map<string, Vertex>

    /** The incoming and outgoing edge lists of the vertex objects. */
    var incoming: EdgeLists
    var outgoing: EdgeLists

    var debugData: bool

    /** Derived indices, valid only right after a rebuild. */
    var vertexById: map<int, Vertex>
    var edgeById: map<int, Edge>

    /** The builder-annotation log; None when annotations are not kept. */
    var graphBuilderAnnotations: Option<seq<Annotation>>

    var agencyIds: set<string>
    var agencies: set<Agency>

    var temporaryEdges: set<Edge>

    ghost predicate Valid()
      reads this`vertices, this`incoming, this`outgoing
    {
      LabelsConsistent(vertices) && EdgeListsConsistent(incoming, outgoing)
    }

    /** The non-transient fields, as writing the graph object records them. */
    function Header(): GraphHeader
      reads this`transitServiceStarts, this`transitServiceEnds, this`debugData, this`agencyIds, this`agencies
    {
      GraphHeader(mavenVersion, transitServiceStarts, transitServiceEnds, debugData, agencyIds, agencies)
    }

    /** The indices as rebuildVertexAndEdgeIndices leaves them. */
    ghost predicate IndicesRebuilt()
      reads this`vertices, this`outgoing, this`vertexById, this`edgeById
    {
      && VertexIndexOf(vertexById, vertices, vertices.Keys)
      && EdgeIndexOf(edgeById, AllOut(vertices.Keys, vertices, outgoing))
    }

    /** A new, empty graph built by `version`; its feed window covers no instant. */
    constructor (version: MavenVersion)
      ensures Valid()
      ensures mavenVersion == version
      ensures vertices == map[] && incoming == map[] && outgoing == map[]
      ensures vertexById == map[] && edgeById == map[] && temporaryEdges == {}
      ensures graphBuilderAnnotations == Some([]) && debugData
      ensures agencyIds == {} && agencies == {}
      ensures transitServiceStarts == LONG_MAX_VALUE && transitServiceEnds == 0
      ensures forall t :: !TransitFeedCovers(t)
    {
      mavenVersion := version;
      transitServiceStarts, transitServiceEnds := LONG_MAX_VALUE, 0;
      vertices, incoming, outgoing := map[], map[], map[];
      debugData := true;
      vertexById, edgeById := map[], map[];
      graphBuilderAnnotations := Some([]);
      agencyIds, agencies := {}, {};
      temporaryEdges := {};
    }

    /**
     * The graph object as read back from its header: field initialisers do not run, so the
     * transient fields are empty and the annotation log is null.
     */
    constructor Deserialized(h: GraphHeader)
      ensures Valid()
      ensures Header() == h
      ensures vertices == map[] && incoming == map[] && outgoing == map[]
      ensures vertexById == map[] && edgeById == map[] && temporaryEdges == {}
      ensures graphBuilderAnnotations == None
    {
      mavenVersion := h.mavenVersion;
      transitServiceStarts, transitServiceEnds := h.transitServiceStarts, h.transitServiceEnds;
      vertices, incoming, outgoing := map[], map[], map[];
      debugData := h.debugData;
      vertexById, edgeById := map[], map[];
      graphBuilderAnnotations := None;
      agencyIds, agencies := h.agencyIds, h.agencies;
      temporaryEdges := {};
    }

    /* ---------- the label map ---------- */

    /** addVertex: last write wins; a clash with the label's previous holder is only noted. */
    method AddVertex(v: Vertex) returns (note: AddVertexNote)
      requires Valid()
      modifies this`vertices
      ensures Valid()
      ensures vertices == old(vertices)[v.name := v]
      ensures ContainsVertex(Some(v))
      ensures note == if v.name !in old(vertices) then Added
                      else if old(vertices)[v.name] == v then RepeatedVertex
                      else DuplicateLabel
    {
      if v.name !in vertices {
        note := Added;
      } else if vertices[v.name] == v {
        note := RepeatedVertex;
      } else {
        note := DuplicateLabel;
      }
      vertices := vertices[v.name := v];
    }

    /**
     * removeVertex: removes whatever vertex holds v's label; `wasMember` is false (and an
     * error is logged) when that was not v itself.
     */
    method RemoveVertex(v: Vertex) returns (wasMember: bool)
      requires Valid()
      modifies this`vertices
      ensures Valid()
      ensures vertices == old(vertices) - {v.name}
      ensures wasMember == old(ContainsVertex(Some(v)))
    {
      wasMember := v.name in vertices && vertices[v.name] == v;
      vertices := vertices - {v.name};
    }

    /** remove: drops v's label from the label map. */
    method Remove(v: Vertex)
      requires Valid()
      modifies this`vertices
      ensures Valid()
      ensures vertices == old(vertices) - {v.name}
      ensures !ContainsVertex(Some(v))
    {
      vertices := vertices - {v.name};
    }

    /** containsVertex: v is not null and is one of getVertices(). */
    function ContainsVertex(v: Option<Vertex>): (b: bool)
      reads this`vertices
      ensures b ==> v.Some? && v.value in vertices.Values
      ensures Valid() && v.Some? && v.value in vertices.Values ==> b
    {
      v.Some? && v.value.name in vertices && vertices[v.value.name] == v.value
    }

    /* ---------- edge lists ---------- */

    /**
     * Vertex.removeAllEdges: v's lists become empty and each of its edges leaves the list of
     * its other endpoint.
     */
    method RemoveAllEdges(v: Vertex)
      requires Valid()
      modifies this`incoming, this`outgoing
      ensures Valid()
      ensures EdgesOf(incoming, v) == {} && EdgesOf(outgoing, v) == {}
      ensures forall w :: w != v ==>
        EdgesOf(outgoing, w) == EdgesOf(old(outgoing), w) - EdgesOf(old(incoming), v)
      ensures forall w :: w != v ==>
        EdgesOf(incoming, w) == EdgesOf(old(incoming), w) - EdgesOf(old(outgoing), v)
    {
      DetachKeepsConsistency(incoming, outgoing, v);
      var vin, vout := EdgesOf(incoming, v), EdgesOf(outgoing, v);
      outgoing := Detach(outgoing, v, vin);
      incoming := Detach(incoming, v, vout);
    }

    /**
     * removeVertexAndEdges: `ok` is false (the IllegalStateException) and nothing changes
     * unless v is in the graph; otherwise v's edges leave the temporary-edge set and every
     * edge list, and v's label leaves the label map.
     */
    method RemoveVertexAndEdges(v: Vertex) returns (ok: bool)
      requires Valid()
      modifies this`incoming, this`outgoing, this`temporaryEdges, this`vertices
      ensures Valid()
      ensures ok == old(ContainsVertex(Some(v)))
      ensures !ok ==> vertices == old(vertices) && incoming == old(incoming) && outgoing == old(outgoing)
                      && temporaryEdges == old(temporaryEdges)
      ensures ok ==> vertices == old(vertices) - {v.name}
      ensures ok ==> temporaryEdges == old(temporaryEdges) - EdgesOf(old(incoming), v) - EdgesOf(old(outgoing), v)
      ensures ok ==> EdgesOf(incoming, v) == {} && EdgesOf(outgoing, v) == {}
      ensures ok ==> forall w :: w != v ==>
        EdgesOf(outgoing, w) == EdgesOf(old(outgoing), w) - EdgesOf(old(incoming), v)
      ensures ok ==> forall w :: w != v ==>
        EdgesOf(incoming, w) == EdgesOf(old(incoming), w) - EdgesOf(old(outgoing), v)
    {
      if !ContainsVertex(Some(v)) {
        return false;
      }
      var vin := EdgesOf(incoming, v);
      var rest := vin;
      while rest != {}
        invariant rest <= vin
        invariant temporaryEdges == old(temporaryEdges) - (vin - rest)
        invariant vertices == old(vertices) && incoming == old(incoming) && outgoing == old(outgoing)
      {
        var e :| e in rest;
        temporaryEdges := temporaryEdges - {e};
        rest := rest - {e};
      }
      var vout := EdgesOf(outgoing, v);
      rest := vout;
      while rest != {}
        invariant rest <= vout
        invariant temporaryEdges == old(temporaryEdges) - vin - (vout - rest)
        invariant vertices == old(vertices) && incoming == old(incoming) && outgoing == old(outgoing)
      {
        var e :| e in rest;
        temporaryEdges := temporaryEdges - {e};
        rest := rest - {e};
      }
      RemoveAllEdges(v);
      Remove(v);
      return true;
    }

    /* ---------- counts and indices ---------- */

    /** countEdges: the sum of the out-degrees, which is the number of distinct edges. */
    method CountEdges() returns (ne: nat)
      ensures ne == SumOutDegrees(vertices.Keys, vertices, outgoing)
      ensures Valid() ==> ne == |AllOut(vertices.Keys, vertices, outgoing)|
    {
      ne := 0;
      var todo := vertices.Keys;
      while todo != {}
        invariant todo <= vertices.Keys
        invariant ne + SumOutDegrees(todo, vertices, outgoing) == SumOutDegrees(vertices.Keys, vertices, outgoing)
      {
        var l :| l in todo;
        SumOutDegreesSplit(todo, l, vertices, outgoing);
        ne := ne + |EdgesOf(outgoing, vertices[l])|;
        todo := todo - {l};
      }
      if Valid() {
        ConsistentListsAreOwned(incoming, outgoing);
        SumOutDegreesCountsEdges(vertices.Keys, vertices, outgoing);
      }
    }

    /** getEdges: the union of the outgoing lists of the vertices in the label map. */
    method GetEdges() returns (edges: set<Edge>)
      ensures edges == AllOut(vertices.Keys, vertices, outgoing)
    {
      edges := {};
      var todo := vertices.Keys;
      while todo != {}
        invariant todo <= vertices.Keys
        invariant edges == AllOut(vertices.Keys - todo, vertices, outgoing)
      {
        var l :| l in todo;
        ghost var done := vertices.Keys - todo;
        AllOutAdd(done, l, vertices, outgoing);
        edges := edges + EdgesOf(outgoing, vertices[l]);
        todo := todo - {l};
        assert vertices.Keys - todo == done + {l};
      }
      assert vertices.Keys - {} == vertices.Keys;
    }

    /**
     * addEdgesToIndex: each edge is filed under its id; among edges sharing an id the last
     * one wins, and ids not among `es` keep their entry.
     */
    method AddEdgesToIndex(es: set<Edge>)
      modifies this`edgeById
      ensures edgeById.Keys == old(edgeById).Keys + EdgeIds(es)
      ensures forall i :: i in EdgeIds(es) ==> edgeById[i] in es && edgeById[i].id == i
      ensures forall i :: i in old(edgeById) && i !in EdgeIds(es) ==> edgeById[i] == old(edgeById)[i]
    {
      var rest := es;
      while rest != {}
        invariant rest <= es
        invariant edgeById.Keys == old(edgeById).Keys + EdgeIds(es - rest)
        invariant forall i :: i in EdgeIds(es - rest) ==> edgeById[i] in es && edgeById[i].id == i
        invariant forall i :: i in old(edgeById) && i !in EdgeIds(es - rest) ==> edgeById[i] == old(edgeById)[i]
      {
        var e :| e in rest;
        assert EdgeIds(es - (rest - {e})) == EdgeIds(es - rest) + {e.id};
        edgeById := edgeById[e.id := e];
        rest := rest - {e};
      }
    }

    /**
     * rebuildVertexAndEdgeIndices: vertexById files each vertex of the label map under its
     * index, edgeById each edge of an outgoing list under its id.
     */
    method RebuildVertexAndEdgeIndices()
      modifies this`vertexById, this`edgeById
      ensures IndicesRebuilt()
    {
      var vs := vertices;
      var byIndex: map<int, Vertex> := map[];
      var todo := vs.Keys;
      while todo != {}
        invariant todo <= vs.Keys
        invariant VertexIndexOf(byIndex, vs, vs.Keys - todo)
      {
        var l :| l in todo;
        ghost var done := vs.Keys - todo;
        VertexIndexStep(byIndex, vs, done, l);
        byIndex := byIndex[vs[l].index := vs[l]];
        todo := todo - {l};
        assert vs.Keys - todo == done + {l};
      }
      assert vs.Keys - {} == vs.Keys;
      vertexById := byIndex;
      edgeById := map[];
      todo := vs.Keys;
      while todo != {}
        invariant todo <= vs.Keys
        invariant vertexById == byIndex
        invariant EdgeIndexOf(edgeById, AllOut(vs.Keys - todo, vs, outgoing))
      {
        var l :| l in todo;
        ghost var done := vs.Keys - todo;
        assert vs.Keys - (todo - {l}) == done + {l};
        ghost var before := edgeById;
        var out := EdgesOf(outgoing, vs[l]);
        AddEdgesToIndex(out);
        EdgeIndexExtend(before, edgeById, AllOut(done, vs, outgoing), out);
        AllOutAdd(done, l, vs, outgoing);
        todo := todo - {l};
      }
      assert vs.Keys - {} == vs.Keys;
    }

    /**
     * The collecting loop of removeEdgelessVertices: the vertices of the label map with
     * neither incoming nor outgoing edges, each listed once.
     */
    method EdgelessVertices() returns (toRemove: seq<Vertex>)
      requires LabelsConsistent(vertices)
      ensures Names(toRemove) == EdgelessLabels(vertices, incoming, outgoing)
      ensures |toRemove| == |Names(toRemove)|
    {
      var vs := vertices;
      toRemove := [];
      var todo := vs.Keys;
      while todo != {}
        invariant todo <= vs.Keys
        invariant ListsEdgeless(toRemove, vs.Keys - todo, vs, incoming, outgoing)
      {
        var l :| l in todo;
        ghost var done := vs.Keys - todo;
        assert vs.Keys - (todo - {l}) == done + {l};
        var v := vs[l];
        ListsEdgelessStep(toRemove, done, l, vs, incoming, outgoing);
        if Degree(incoming, outgoing, v) == 0 {
          toRemove := toRemove + [v];
        }
        todo := todo - {l};
      }
      assert vs.Keys - {} == vs.Keys;
    }

    /**
     * removeEdgelessVertices: collects the vertices with neither incoming nor outgoing edges,
     * then removes them, and returns how many it removed.
     */
    method RemoveEdgelessVertices() returns (removed: nat)
      requires Valid()
      modifies this`vertices
      ensures Valid()
      ensures removed == |EdgelessLabels(old(vertices), incoming, outgoing)|
      ensures vertices == WithoutEdgeless(old(vertices), incoming, outgoing)
    {
      var toRemove := EdgelessVertices();
      ghost var start := vertices;
      assert toRemove[..0] == [];
      removed := 0;
      var i := 0;
      while i < |toRemove|
        invariant 0 <= i <= |toRemove|
        invariant Valid()
        invariant vertices == start - Names(toRemove[..i])
        invariant removed == i
      {
        NamesStep(toRemove, i);
        RemoveLabelStep(start, Names(toRemove[..i]), toRemove[i].name);
        Remove(toRemove[i]);
        removed := removed + 1;
        i := i + 1;
      }
      assert toRemove[..i] == toRemove;
      WithoutEdgelessIsRemoval(start, incoming, outgoing);
    }

    /* ---------- temporary edges and agencies ---------- */

    method AddTemporaryEdge(e: Edge)
      modifies this`temporaryEdges
      ensures temporaryEdges == old(temporaryEdges) + {e}
    {
      temporaryEdges := temporaryEdges + {e};
    }

    /** removeTemporaryEdge: a no-op for an edge with a null endpoint. */
    method RemoveTemporaryEdge(e: Edge)
      modifies this`temporaryEdges
      ensures e.from.None? || e.to.None? ==> temporaryEdges == old(temporaryEdges)
      ensures e.from.Some? && e.to.Some? ==> temporaryEdges == old(temporaryEdges) - {e}
    {
      if e.from.None? || e.to.None? {
        return;
      }
      temporaryEdges := temporaryEdges - {e};
    }

    method AddAgency(agency: Agency)
      modifies this`agencies, this`agencyIds
      ensures agencies == old(agencies) + {agency}
      ensures agencyIds == old(agencyIds) + {agency.id}
    {
      agencies := agencies + {agency};
      agencyIds := agencyIds + {agency.id};
    }

    /* ---------- builder annotations ---------- */

    /** addBuilderAnnotation: returns the message; keeps the annotation only if the log exists. */
    method AddBuilderAnnotation(a: Annotation) returns (message: string)
      modifies this`graphBuilderAnnotations
      ensures message == a.Message()
      ensures graphBuilderAnnotations == AppendLog(old(graphBuilderAnnotations), [a])
    {
      message := a.Message();
      if graphBuilderAnnotations.Some? {
        graphBuilderAnnotations := Some(graphBuilderAnnotations.value + [a]);
      }
    }

    /* ---------- transit feed validity ---------- */

    /**
     * transitFeedCovers: the half-open window [starts, ends). An empty window, such as the
     * one a new graph starts with, covers no instant.
     */
    function TransitFeedCovers(t: int): (b: bool)
      reads this`transitServiceStarts, this`transitServiceEnds
      ensures transitServiceEnds <= transitServiceStarts ==> !b
    {
      t >= transitServiceStarts && t < transitServiceEnds
    }

    /**
     * updateTransitFeedValidity: widens the window to start no later than every service date
     * and to end no earlier than a day after each, and annotates every agency that has no
     * service date after `now`.
     */
    method UpdateTransitFeedValidity(data: CalendarData, now: int)
      modifies this`transitServiceStarts, this`transitServiceEnds, this`graphBuilderAnnotations
      ensures transitServiceStarts <= old(transitServiceStarts)
      ensures transitServiceEnds >= old(transitServiceEnds)
      ensures forall sid, t :: sid in data && t in data[sid] ==>
        transitServiceStarts <= t && t + SEC_IN_DAY <= transitServiceEnds
      ensures forall sid, t :: sid in data && t in data[sid] ==>
        TransitFeedCovers(t) && TransitFeedCovers(t + SEC_IN_DAY - 1)
      ensures transitServiceStarts == old(transitServiceStarts) || IsServiceInstant(data, transitServiceStarts)
      ensures transitServiceEnds == old(transitServiceEnds) || IsServiceInstant(data, transitServiceEnds - SEC_IN_DAY)
      ensures LogExtendedBy(old(graphBuilderAnnotations), graphBuilderAnnotations, StaleAgencies(data, now))
    {
      var starts, ends := transitServiceStarts, transitServiceEnds;
      var agenciesWithFutureDates: set<string> := {};
      var agenciesSeen: set<string> := {};
      var todo := data.Keys;
      while todo != {}
        modifies {}
        invariant todo <= data.Keys
        invariant agenciesSeen == AgenciesAmong(data, data.Keys - todo)
        invariant agenciesWithFutureDates == FutureAgenciesAmong(data, data.Keys - todo, now)
        invariant WindowSpans(starts, ends, data, data.Keys - todo)
        invariant starts <= transitServiceStarts && ends >= transitServiceEnds
        invariant starts == transitServiceStarts || IsServiceInstant(data, starts)
        invariant ends == transitServiceEnds || IsServiceInstant(data, ends - SEC_IN_DAY)
      {
        var sid :| sid in todo;
        ghost var done := data.Keys - todo;
        ghost var starts0, ends0 := starts, ends;
        agenciesSeen := agenciesSeen + {sid.agencyId};
        var future;
        starts, ends, future := WidenOverDates(data[sid], now, starts, ends);
        if future {
          agenciesWithFutureDates := agenciesWithFutureDates + {sid.agencyId};
        }
        assert starts == starts0 || IsServiceInstant(data, starts) by {
          if starts != starts0 {
            assert sid in data && starts in data[sid];
          }
        }
        assert ends == ends0 || IsServiceInstant(data, ends - SEC_IN_DAY) by {
          if ends != ends0 {
            assert sid in data && ends - SEC_IN_DAY in data[sid];
          }
        }
        WindowSpansAdd(starts0, ends0, starts, ends, data, done, sid);
        AgenciesAmongAdd(data, done, sid, now);
        todo := todo - {sid};
        assert data.Keys - todo == done + {sid};
      }
      assert data.Keys - {} == data.Keys;
      transitServiceStarts, transitServiceEnds := starts, ends;
      AnnotateAgenciesWithoutFutureDates(agenciesSeen, agenciesWithFutureDates);
    }

    /**
     * The annotating loop of updateTransitFeedValidity: one NoFutureDates annotation for each
     * agency of `agencies` that is not among `withFutureDates`.
     */
    method AnnotateAgenciesWithoutFutureDates(agencies: set<string>, withFutureDates: set<string>)
      modifies this`graphBuilderAnnotations
      ensures LogExtendedBy(old(graphBuilderAnnotations), graphBuilderAnnotations, agencies - withFutureDates)
    {
      var rest := agencies;
      ghost var log0 := graphBuilderAnnotations;
      ghost var added: seq<Annotation> := [];
      assert log0.Some? ==> log0.value + added == log0.value;
      while rest != {}
        invariant rest <= agencies
        invariant FlagsExactly(added, (agencies - rest) - withFutureDates)
        invariant graphBuilderAnnotations == AppendLog(log0, added)
      {
        var agency :| agency in rest;
        ghost var added' := if agency in withFutureDates then added else added + [NoFutureDates(agency)];
        assert FlagsExactly(added', (agencies - (rest - {agency})) - withFutureDates) by {
          FlagsExactlyStep(added, agencies, rest, withFutureDates, agency);
        }
        if agency !in withFutureDates {
          var _ := AddBuilderAnnotation(NoFutureDates(agency));
          AppendLogTwice(log0, added, [NoFutureDates(agency)]);
        }
        added := added';
        rest := rest - {agency};
      }
      assert agencies - {} == agencies;
    }

    /* ---------- saving and loading ---------- */

    /**
     * The consolidating loop of save: the outgoing lists of the vertices in the label map,
     * one after another. Each edge appears once, so the list is as long as countEdges().
     */
    method ConsolidateEdges() returns (edges: seq<Edge>)
      ensures Elems(edges) == AllOut(vertices.Keys, vertices, outgoing)
      ensures |edges| == SumOutDegrees(vertices.Keys, vertices, outgoing)
    {
      edges := [];
      var todo := vertices.Keys;
      while todo != {}
        invariant todo <= vertices.Keys
        invariant Elems(edges) == AllOut(vertices.Keys - todo, vertices, outgoing)
        invariant |edges| == SumOutDegrees(vertices.Keys - todo, vertices, outgoing)
      {
        var l :| l in todo;
        ghost var done := vertices.Keys - todo;
        edges := AddAll(edges, EdgesOf(outgoing, vertices[l]));
        AllOutAdd(done, l, vertices, outgoing);
        todo := todo - {l};
        assert vertices.Keys - todo == done + {l};
      }
      assert vertices.Keys - {} == vertices.Keys;
    }

    /**
     * save: gathers the outgoing lists into one edge list, rebuilds the indices, then writes
     * the graph object, the edge list and, only with debug data, the annotation log and the
     * two indices.
     */
    method Save() returns (records: seq<Record>)
      modifies this`vertexById, this`edgeById
      ensures IndicesRebuilt()
      ensures |records| == if debugData then 5 else 2
      ensures records[0] == HeaderRecord(Header())
      ensures records[1].EdgeListRecord?
      ensures Elems(records[1].edges) == AllOut(vertices.Keys, vertices, outgoing)
      ensures |records[1].edges| == SumOutDegrees(vertices.Keys, vertices, outgoing)
      ensures debugData ==> (records[2..] ==
        [AnnotationsRecord(graphBuilderAnnotations), VertexIndexRecord(vertexById), EdgeIndexRecord(edgeById)])
    {
      var edges := ConsolidateEdges();
      RebuildVertexAndEdgeIndices();
      records := [HeaderRecord(Header()), EdgeListRecord(edges)];
      if debugData {
        records := records + [AnnotationsRecord(graphBuilderAnnotations), VertexIndexRecord(vertexById), EdgeIndexRecord(edgeById)];
      }
    }

    /**
     * The label-map loop of load: each edge's from-vertex and then its to-vertex are put
     * under their labels; `ok` is false (the NullPointerException) when an edge has a null
     * endpoint. The edge lists come back with the edges.
     */
    method ReadEdges(es: seq<Edge>) returns (ok: bool)
      modifies this`vertices, this`incoming, this`outgoing
      ensures ok == EndpointsPresent(es)
      ensures ok ==> vertices == EndpointMap(es) && incoming == IncomingFrom(es) && outgoing == OutgoingFrom(es)
      ensures ok ==> Valid()
    {
      vertices := map[];
      var i := 0;
      while i < |es|
        invariant 0 <= i <= |es|
        invariant EndpointsPresent(es[..i])
        invariant vertices == EndpointMap(es[..i])
      {
        var e := es[i];
        if e.from.None? || e.to.None? {
          assert e in es;
          return false;
        }
        assert es[..i + 1][..i] == es[..i];
        vertices := vertices[e.from.value.name := e.from.value];
        vertices := vertices[e.to.value.name := e.to.value];
        i := i + 1;
      }
      assert es[..|es|] == es;
      incoming, outgoing := IncomingFrom(es), OutgoingFrom(es);
      EndpointMapFilesEndpoints(es);
      RestoredListsConsistent(es);
      return true;
    }

    /**
     * The part of load after the graph object: the label map is rebuilt from the edge list
     * and the indices are rebuilt; FULL stops there. DEBUG also reads the annotation log when
     * the graph has debug data. `err` names the failure, if any.
     */
    method ReadBody(stream: seq<Record>, level: LoadLevel) returns (err: Option<LoadError>)
      requires level != Basic && graphBuilderAnnotations == None
      modifies this`vertices, this`incoming, this`outgoing, this`vertexById, this`edgeById,
        this`graphBuilderAnnotations
      ensures err.Some? ==> err.value != VersionMismatch
      ensures err.None? ==>
        && |stream| > 1 && stream[1].EdgeListRecord? && EndpointsPresent(stream[1].edges)
        && vertices == EndpointMap(stream[1].edges)
        && outgoing == OutgoingFrom(stream[1].edges)
        && incoming == IncomingFrom(stream[1].edges)
        && Valid() && IndicesRebuilt()
      ensures err.None? && level == Full ==> graphBuilderAnnotations == None
      ensures err.None? && level == Debug ==>
        if debugData
        then |stream| > 2 && stream[2].AnnotationsRecord? && graphBuilderAnnotations == stream[2].annotations
        else graphBuilderAnnotations == None
      ensures |stream| > 1 && level == Full && stream[1].EdgeListRecord? ==>
        (err.None? <==> EndpointsPresent(stream[1].edges))
    {
      if |stream| < 2 || !stream[1].EdgeListRecord? {
        return Some(UnexpectedRecord);
      }
      var ok := ReadEdges(stream[1].edges);
      if !ok {
        return Some(NullEndpoint);
      }
      RebuildVertexAndEdgeIndices();
      if level == Debug && debugData {
        if |stream| < 3 || !stream[2].AnnotationsRecord? {
          return Some(UnexpectedRecord);
        }
        graphBuilderAnnotations := stream[2].annotations;
      }
      return None;
    }

    /**
     * load: reads the graph object and refuses a mismatched version; BASIC stops there, the
     * other levels go on with ReadBody.
     */
    static method Load(stream: seq<Record>, level: LoadLevel, running: MavenVersion)
      returns (r: Result<Graph, LoadError>)
      ensures (|stream| == 0 || !stream[0].HeaderRecord?) ==> r == Failure(UnexpectedRecord)
      ensures |stream| > 0 && stream[0].HeaderRecord? ==>
        (r == Failure(VersionMismatch) <==> GraphVersionMismatch(running, stream[0].header.mavenVersion))
      ensures r.Success? ==> |stream| > 0 && stream[0].HeaderRecord?
      ensures r.Success? ==> fresh(r.value) && r.value.Valid() && r.value.Header() == stream[0].header
      ensures r.Success? ==> r.value.temporaryEdges == {}
      ensures r.Success? && level == Basic ==>
        r.value.vertices == map[] && r.value.graphBuilderAnnotations == None
      ensures r.Success? && level != Basic ==>
        && |stream| > 1 && stream[1].EdgeListRecord? && EndpointsPresent(stream[1].edges)
        && r.value.vertices == EndpointMap(stream[1].edges)
        && r.value.outgoing == OutgoingFrom(stream[1].edges)
        && r.value.incoming == IncomingFrom(stream[1].edges)
        && r.value.IndicesRebuilt()
      ensures r.Success? && level == Full ==> r.value.graphBuilderAnnotations == None
      ensures r.Success? && level == Debug ==>
        if stream[0].header.debugData
        then |stream| > 2 && stream[2].AnnotationsRecord? && r.value.graphBuilderAnnotations == stream[2].annotations
        else r.value.graphBuilderAnnotations == None
      ensures |stream| > 0 && stream[0].HeaderRecord? && !GraphVersionMismatch(running, stream[0].header.mavenVersion) ==>
        (level == Basic ==> r.Success?)
      ensures |stream| > 1 && stream[0].HeaderRecord? && !GraphVersionMismatch(running, stream[0].header.mavenVersion)
              && level == Full && stream[1].EdgeListRecord? ==>
        (r.Success? <==> EndpointsPresent(stream[1].edges))
    {
      if |stream| == 0 || !stream[0].HeaderRecord? {
        return Failure(UnexpectedRecord);
      }
      var h := stream[0].header;
      if GraphVersionMismatch(running, h.mavenVersion) {
        return Failure(VersionMismatch);
      }
      var graph := new Graph.Deserialized(h);
      if level == Basic {
        return Success(graph);
      }
      var err := graph.ReadBody(stream, level);
      if err.Some? {
        return Failure(err.value);
      }
      assert graph.Header() == h;
      return Success(graph);
    }
  }

  /**
   * The loop of updateTransitFeedValidity over the service dates of one service id: the
   * window [starts, ends) widened to start no later than each date and to end no earlier
   * than a day after it, and whether some date is after `now`.
   */
  method WidenOverDates(dates: seq<int>, now: int, starts: int, ends: int)
    returns (starts': int, ends': int, future: bool)
    ensures future == HasDateAfter(dates, now)
    ensures starts' <= starts && ends' >= ends
    ensures forall t :: t in dates ==> starts' <= t && t + SEC_IN_DAY <= ends'
    ensures starts' == starts || starts' in dates
    ensures ends' == ends || ends' - SEC_IN_DAY in dates
  {
    starts', ends', future := starts, ends, false;
    var i := 0;
    while i < |dates|
      invariant 0 <= i <= |dates|
      invariant future == HasDateAfter(dates[..i], now)
      invariant starts' <= starts && ends' >= ends
      invariant forall t :: t in dates[..i] ==> starts' <= t && t + SEC_IN_DAY <= ends'
      invariant starts' == starts || starts' in dates
      invariant ends' == ends || ends' - SEC_IN_DAY in dates
    {
      var t := dates[i];
      assert dates[..i + 1] == dates[..i] + [t];
      HasDateAfterAppend(dates[..i], t, now);
      if t > now {
        future := true;
      }
      // the feed is taken to be unreliable after midnight on the last service day
      var u := t + SEC_IN_DAY;
      if t < starts' {
        starts' := t;
      }
      if u > ends' {
        ends' := u;
      }
      i := i + 1;
    }
    assert dates[..|dates|] == dates;
  }

  /**
   * A window that starts no later than a day's first second and ends no earlier than a day
   * after it covers every second of that day, and not the second the window ends at.
   */
  lemma CoversWholeDay(g: Graph, t: int)
    requires g.transitServiceStarts <= t && t + SEC_IN_DAY <= g.transitServiceEnds
    ensures forall u :: t <= u < t + SEC_IN_DAY ==> g.TransitFeedCovers(u)
    ensures !g.TransitFeedCovers(g.transitServiceEnds)
  {
  }

  /** List.addAll: the edges of `es` appended to `edges`, each once, in some order. */
  method AddAll(edges: seq<Edge>, es: set<Edge>) returns (r: seq<Edge>)
    ensures |r| == |edges| + |es|
    ensures r[..|edges|] == edges
    ensures Elems(r) == Elems(edges) + es
  {
    r := edges;
    var rest := es;
    while rest != {}
      invariant rest <= es
      invariant |rest| <= |es| && |r| == |edges| + (|es| - |rest|)
      invariant r[..|edges|] == edges
      invariant Elems(r) == Elems(edges) + (es - rest)
    {
      var e :| e in rest;
      assert Elems(r + [e]) == Elems(r) + {e};
      assert (r + [e])[..|edges|] == r[..|edges|];
      r := r + [e];
      rest := rest - {e};
    }
  }

  /**
   * save followed by load(FULL) in the same build, for a consistent graph whose edges stay
   * among its vertices: the load succeeds, the label map comes back without its edgeless
   * vertices, the edges and countEdges() are unchanged.
   */
  method SaveThenLoad(g: Graph) returns (loaded: Graph)
    requires g.Valid() && Closed(g.vertices, g.incoming, g.outgoing)
    modifies g`vertexById, g`edgeById
    ensures loaded.Valid()
    ensures loaded.vertices == WithoutEdgeless(g.vertices, g.incoming, g.outgoing)
    ensures AllOut(loaded.vertices.Keys, loaded.vertices, loaded.outgoing)
         == AllOut(g.vertices.Keys, g.vertices, g.outgoing)
    ensures SumOutDegrees(loaded.vertices.Keys, loaded.vertices, loaded.outgoing)
         == SumOutDegrees(g.vertices.Keys, g.vertices, g.outgoing)
    ensures loaded.Header() == g.Header()
  {
    var records := g.Save();
    VersionGate(g.mavenVersion, g.mavenVersion);
    var es := records[1].edges;
    LoadRebuildsVerticesWithEdges(g.vertices, g.incoming, g.outgoing, es);
    LoadKeepsEdges(g.vertices, g.incoming, g.outgoing, es);
    var r := Graph.Load(records, Full, g.mavenVersion);
    loaded := r.value;
  }
}
