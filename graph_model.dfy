/**
 * The values the graph store works with: vertices, edges, the per-vertex edge lists,
 * builder annotations, build versions and the records of a saved graph, together with
 * the specification functions over them and the lemmas that relate them.
 *
 * A Java vertex object is identified here by its label and its construction index (the
 * index comes from a process-wide counter, so no two vertex objects share one). The edge
 * lists that each Java vertex owns are kept as maps from vertex to edge set (`EdgeLists`).
 */
module GraphModel {
  import opened Wrappers

  /** Long.MAX_VALUE, the initial start of the transit service window. */
  const LONG_MAX_VALUE: int := 0x7fff_ffff_ffff_ffff

  /** Seconds in a day; a service date covers the day that starts at its instant. */
  const SEC_IN_DAY: int := 24 * 60 * 60

  /** A vertex: `name` is its label (the key of the label map), `index` its construction index. */
  datatype Vertex = Vertex(name: string, index: int)

  /** An edge; either endpoint may be null (an edge that has been detached). */
  datatype Edge = Edge(id: int, from: Option<Vertex>, to: Option<Vertex>)

  /** The incoming or the outgoing edge lists of all vertex objects. */
  type EdgeLists = map<Vertex, set<Edge>>

  /** The edge list of `v`; a vertex that never received an edge has an empty one. */
  function EdgesOf(lists: EdgeLists, v: Vertex): set<Edge>
  {
    if v in lists then lists[v] else {}
  }

  /** getDegreeIn() + getDegreeOut(). */
  function Degree(incoming: EdgeLists, outgoing: EdgeLists, v: Vertex): nat
  {
    |EdgesOf(incoming, v)| + |EdgesOf(outgoing, v)|
  }

  /** containsVertex: the label map holds exactly this vertex object under its label. */
  predicate InLabelMap(vertices: map<string, Vertex>, v: Vertex)
  {
    v.name in vertices && vertices[v.name] == v
  }

  /** addVertex files every vertex under its own label. */
  ghost predicate LabelsConsistent(vertices: map<string, Vertex>)
  {
    forall l :: l in vertices ==> vertices[l].name == l
  }

  /**
   * An edge in the outgoing list of `v` starts at `v` and is in the incoming list of its
   * destination; symmetrically for incoming lists. So incoming lists hold no edge that is
   * missing from every outgoing list.
   */
  ghost predicate EdgeListsConsistent(incoming: EdgeLists, outgoing: EdgeLists)
  {
    && (forall v, e :: v in outgoing && e in outgoing[v] ==>
          e.from == Some(v) && e.to.Some? && e in EdgesOf(incoming, e.to.value))
    && (forall v, e :: v in incoming && e in incoming[v] ==>
          e.to == Some(v) && e.from.Some? && e in EdgesOf(outgoing, e.from.value))
  }

  /** Every edge of a vertex in the label map leads to and comes from vertices in the label map. */
  ghost predicate Closed(vertices: map<string, Vertex>, incoming: EdgeLists, outgoing: EdgeLists)
  {
    && (forall l, e :: l in vertices && e in EdgesOf(outgoing, vertices[l]) ==>
          e.to.Some? && InLabelMap(vertices, e.to.value))
    && (forall l, e :: l in vertices && e in EdgesOf(incoming, vertices[l]) ==>
          e.from.Some? && InLabelMap(vertices, e.from.value))
  }

  /** The lists after `v` is detached: its own list is emptied and `gone` leaves every other list. */
  function Detach(lists: EdgeLists, v: Vertex, gone: set<Edge>): (r: EdgeLists)
    ensures EdgesOf(r, v) == {}
    ensures forall w :: w != v ==> EdgesOf(r, w) == EdgesOf(lists, w) - gone
  {
    (map w | w in lists :: lists[w] - gone)[v := {}]
  }

  /**
   * Detaching `v` (its outgoing edges leave the incoming lists, its incoming edges leave the
   * outgoing lists) keeps the lists consistent.
   */
  lemma DetachKeepsConsistency(incoming: EdgeLists, outgoing: EdgeLists, v: Vertex)
    requires EdgeListsConsistent(incoming, outgoing)
    ensures EdgeListsConsistent(Detach(incoming, v, EdgesOf(outgoing, v)), Detach(outgoing, v, EdgesOf(incoming, v)))
  {
    var vin, vout := EdgesOf(incoming, v), EdgesOf(outgoing, v);
    var inc, out := Detach(incoming, v, vout), Detach(outgoing, v, vin);
    forall w: Vertex, e: Edge | w in out && e in out[w]
      ensures e.from == Some(w) && e.to.Some? && e in EdgesOf(inc, e.to.value)
    {
      assert w != v && e in EdgesOf(outgoing, w) && e !in vin;
      assert e.to.value != v;
      assert e !in vout;
    }
    forall w: Vertex, e: Edge | w in inc && e in inc[w]
      ensures e.to == Some(w) && e.from.Some? && e in EdgesOf(out, e.from.value)
    {
      assert w != v && e in EdgesOf(incoming, w) && e !in vout;
      assert e.from.value != v;
      assert e !in vin;
    }
  }

  /** The labels of a sequence of vertices. */
  function Names(vs: seq<Vertex>): (r: set<string>)
  {
    if |vs| == 0 then {} else Names(vs[..|vs| - 1]) + {vs[|vs| - 1].name}
  }

  lemma NamesStep(vs: seq<Vertex>, i: int)
    requires 0 <= i < |vs|
    ensures Names(vs[..i + 1]) == Names(vs[..i]) + {vs[i].name}
  {
    assert vs[..i + 1][..i] == vs[..i];
  }

  /** Removing labels one at a time removes them all. */
  lemma RemoveLabelStep(m: map<string, Vertex>, removed: set<string>, l: string)
    ensures m - removed - {l} == m - (removed + {l})
  {
  }

  /** Distinct vertices of the label map have distinct indices (true of Java vertex objects). */
  ghost predicate IndicesDistinct(vertices: map<string, Vertex>)
  {
    forall l1, l2 :: l1 in vertices && l2 in vertices && vertices[l1].index == vertices[l2].index ==>
      vertices[l1] == vertices[l2]
  }

  /* ---------- edges and edge counts ---------- */

  /** The union of the outgoing lists of the vertices filed under `labels`: the edges of getEdges(). */
  ghost function AllOut(labels: set<string>, vertices: map<string, Vertex>, outgoing: EdgeLists): set<Edge>
  {
    set l, e | l in labels && l in vertices && e in EdgesOf(outgoing, vertices[l]) :: e
  }

  function OutDegreeAt(vertices: map<string, Vertex>, outgoing: EdgeLists, l: string): nat
  {
    if l in vertices then |EdgesOf(outgoing, vertices[l])| else 0
  }

  ghost function PickLabel(labels: set<string>): (l: string)
    requires labels != {}
    ensures l in labels
  {
    var l :| l in labels; l
  }

  /** The sum of the out-degrees of the vertices filed under `labels`. */
  ghost function SumOutDegrees(labels: set<string>, vertices: map<string, Vertex>, outgoing: EdgeLists): nat
    decreases labels
  {
    if labels == {} then 0
    else
      var l := PickLabel(labels);
      OutDegreeAt(vertices, outgoing, l) + SumOutDegrees(labels - {l}, vertices, outgoing)
  }

  /** The sum does not depend on the order in which labels are visited. */
  lemma {:induction false} SumOutDegreesSplit(labels: set<string>, l: string, vertices: map<string, Vertex>, outgoing: EdgeLists)
    requires l in labels
    ensures SumOutDegrees(labels, vertices, outgoing)
         == OutDegreeAt(vertices, outgoing, l) + SumOutDegrees(labels - {l}, vertices, outgoing)
    decreases labels
  {
    var k := PickLabel(labels);
    if k != l {
      SumOutDegreesSplit(labels - {k}, l, vertices, outgoing);
      SumOutDegreesSplit(labels - {l}, k, vertices, outgoing);
      assert labels - {k} - {l} == labels - {l} - {k};
    }
  }

  lemma AllOutSplit(labels: set<string>, l: string, vertices: map<string, Vertex>, outgoing: EdgeLists)
    requires l in labels && l in vertices
    ensures AllOut(labels, vertices, outgoing)
         == EdgesOf(outgoing, vertices[l]) + AllOut(labels - {l}, vertices, outgoing)
  {
  }

  /** Every edge in the outgoing list of `v` starts at `v`. */
  ghost predicate OutgoingOwned(outgoing: EdgeLists)
  {
    forall v, e :: v in outgoing && e in outgoing[v] ==> e.from == Some(v)
  }

  lemma ConsistentListsAreOwned(incoming: EdgeLists, outgoing: EdgeLists)
    requires EdgeListsConsistent(incoming, outgoing)
    ensures OutgoingOwned(outgoing)
  {
  }

  /** The outgoing list of one vertex shares no edge with those of the other labels. */
  lemma OutgoingDisjoint(labels: set<string>, l: string, vertices: map<string, Vertex>, outgoing: EdgeLists)
    requires l in vertices && l !in labels
    requires LabelsConsistent(vertices) && OutgoingOwned(outgoing)
    ensures EdgesOf(outgoing, vertices[l]) !! AllOut(labels, vertices, outgoing)
  {
    forall e | e in AllOut(labels, vertices, outgoing)
      ensures e !in EdgesOf(outgoing, vertices[l])
    {
      var l' :| l' in labels && l' in vertices && e in EdgesOf(outgoing, vertices[l']);
      assert e.from == Some(vertices[l']);
      assert vertices[l'].name != vertices[l].name;
    }
  }

  /**
   * When every outgoing list holds only edges that start at its vertex, countEdges() (the
   * sum of out-degrees) equals the number of distinct edges getEdges() returns: no edge is
   * counted twice.
   */
  lemma {:induction false} SumOutDegreesCountsEdges(labels: set<string>, vertices: map<string, Vertex>, outgoing: EdgeLists)
    requires labels <= vertices.Keys
    requires LabelsConsistent(vertices) && OutgoingOwned(outgoing)
    ensures SumOutDegrees(labels, vertices, outgoing) == |AllOut(labels, vertices, outgoing)|
    decreases labels
  {
    if labels != {} {
      var l := PickLabel(labels);
      SumOutDegreesSplit(labels, l, vertices, outgoing);
      SumOutDegreesCountsEdges(labels - {l}, vertices, outgoing);
      AllOutSplit(labels, l, vertices, outgoing);
      OutgoingDisjoint(labels - {l}, l, vertices, outgoing);
    }
  }

  /** The ids of a set of edges. */
  ghost function EdgeIds(edges: set<Edge>): set<int>
  {
    set e | e in edges :: e.id
  }

  /** Adding one label's vertices to a union of outgoing lists adds its list and its out-degree. */
  lemma AllOutAdd(labels: set<string>, l: string, vertices: map<string, Vertex>, outgoing: EdgeLists)
    requires l in vertices && l !in labels
    ensures AllOut(labels + {l}, vertices, outgoing) == AllOut(labels, vertices, outgoing) + EdgesOf(outgoing, vertices[l])
    ensures SumOutDegrees(labels + {l}, vertices, outgoing)
         == SumOutDegrees(labels, vertices, outgoing) + |EdgesOf(outgoing, vertices[l])|
  {
    AllOutSplit(labels + {l}, l, vertices, outgoing);
    SumOutDegreesSplit(labels + {l}, l, vertices, outgoing);
    assert labels + {l} - {l} == labels;
  }

  /**
   * `byIndex` files each vertex filed under `labels` by its index and holds nothing else;
   * when indices are distinct, every such vertex can be found again by its index.
   */
  ghost predicate VertexIndexOf(byIndex: map<int, Vertex>, vertices: map<string, Vertex>, labels: set<string>)
  {
    && byIndex.Keys == (set l | l in labels && l in vertices :: vertices[l].index)
    && (forall i :: i in byIndex ==> byIndex[i].index == i && byIndex[i] in vertices.Values)
    && (IndicesDistinct(vertices) ==>
          forall l :: l in labels && l in vertices ==>
            vertices[l].index in byIndex && byIndex[vertices[l].index] == vertices[l])
  }

  lemma VertexIndexStep(byIndex: map<int, Vertex>, vertices: map<string, Vertex>, labels: set<string>, l: string)
    requires VertexIndexOf(byIndex, vertices, labels) && l in vertices
    ensures VertexIndexOf(byIndex[vertices[l].index := vertices[l]], vertices, labels + {l})
  {
    var v := vertices[l];
    assert (set l' | l' in labels + {l} && l' in vertices :: vertices[l'].index)
        == (set l' | l' in labels && l' in vertices :: vertices[l'].index) + {v.index};
  }

  /** `byId` files edges of `edges` under their ids, one for each id among them, and nothing else. */
  ghost predicate EdgeIndexOf(byId: map<int, Edge>, edges: set<Edge>)
  {
    && byId.Keys == EdgeIds(edges)
    && (forall i :: i in byId ==> byId[i].id == i && byId[i] in edges)
  }

  /** Filing `es` over an index of `edges` (last one wins per id) gives an index of both. */
  lemma EdgeIndexExtend(before: map<int, Edge>, after: map<int, Edge>, edges: set<Edge>, es: set<Edge>)
    requires EdgeIndexOf(before, edges)
    requires after.Keys == before.Keys + EdgeIds(es)
    requires forall i :: i in EdgeIds(es) ==> after[i] in es && after[i].id == i
    requires forall i :: i in before && i !in EdgeIds(es) ==> after[i] == before[i]
    ensures EdgeIndexOf(after, edges + es)
  {
    assert EdgeIds(edges + es) == EdgeIds(edges) + EdgeIds(es);
  }

  /* ---------- pruning ---------- */

  /** The labels among `labels` whose vertex has neither incoming nor outgoing edges. */
  ghost function EdgelessAmong(labels: set<string>, vertices: map<string, Vertex>, incoming: EdgeLists, outgoing: EdgeLists): set<string>
  {
    set l | l in labels && l in vertices && Degree(incoming, outgoing, vertices[l]) == 0
  }

  /** The labels whose vertex has neither incoming nor outgoing edges. */
  ghost function EdgelessLabels(vertices: map<string, Vertex>, incoming: EdgeLists, outgoing: EdgeLists): set<string>
  {
    EdgelessAmong(vertices.Keys, vertices, incoming, outgoing)
  }

  /** `toRemove` lists the edgeless vertices filed under `labels`, each once. */
  ghost predicate ListsEdgeless(toRemove: seq<Vertex>, labels: set<string>, vertices: map<string, Vertex>, incoming: EdgeLists, outgoing: EdgeLists)
  {
    Names(toRemove) == EdgelessAmong(labels, vertices, incoming, outgoing) && |toRemove| == |Names(toRemove)|
  }

  lemma ListsEdgelessStep(toRemove: seq<Vertex>, labels: set<string>, l: string, vertices: map<string, Vertex>, incoming: EdgeLists, outgoing: EdgeLists)
    requires l in vertices && l !in labels && vertices[l].name == l
    requires ListsEdgeless(toRemove, labels, vertices, incoming, outgoing)
    ensures Degree(incoming, outgoing, vertices[l]) == 0 ==>
      ListsEdgeless(toRemove + [vertices[l]], labels + {l}, vertices, incoming, outgoing)
    ensures Degree(incoming, outgoing, vertices[l]) != 0 ==>
      ListsEdgeless(toRemove, labels + {l}, vertices, incoming, outgoing)
  {
    EdgelessAmongAdd(labels, l, vertices, incoming, outgoing);
    var r := toRemove + [vertices[l]];
    assert r[..|toRemove|] == toRemove;
    assert Names(r) == Names(toRemove) + {l};
  }

  lemma EdgelessAmongAdd(labels: set<string>, l: string, vertices: map<string, Vertex>, incoming: EdgeLists, outgoing: EdgeLists)
    requires l in vertices
    ensures EdgelessAmong(labels + {l}, vertices, incoming, outgoing)
         == EdgelessAmong(labels, vertices, incoming, outgoing)
            + (if Degree(incoming, outgoing, vertices[l]) == 0 then {l} else {})
  {
  }

  /* ---------- builder annotations ---------- */

  datatype Annotation =
    | NoFutureDates(agencyId: string)
    | OtherAnnotation(text: string)
  {
    /** getMessage(). The wording of the NoFutureDates message is illustrative. */
    function Message(): string
    {
      match this
      case NoFutureDates(agency) =>
        "Agency " + agency + " has no calendar dates which are after today; no trips will be plannable on this agency"
      case OtherAnnotation(text) => text
    }
  }

  /** The agencies named by the NoFutureDates annotations in `log`. */
  ghost function FlaggedAgencies(log: seq<Annotation>): set<string>
  {
    set i | 0 <= i < |log| && log[i].NoFutureDates? :: log[i].agencyId
  }

  /** The log with `added` appended; a missing log stays missing. */
  function AppendLog(log: Option<seq<Annotation>>, added: seq<Annotation>): (r: Option<seq<Annotation>>)
    ensures r.Some? <==> log.Some?
    ensures log.Some? ==>
      |r.value| == |log.value| + |added| && r.value[..|log.value|] == log.value && r.value[|log.value|..] == added
  {
    if log.Some? then Some(log.value + added) else None
  }

  lemma AppendLogTwice(log: Option<seq<Annotation>>, a: seq<Annotation>, b: seq<Annotation>)
    ensures AppendLog(AppendLog(log, a), b) == AppendLog(log, a + b)
  {
    if log.Some? {
      assert log.value + a + b == log.value + (a + b);
    }
  }

  /** `added` holds one NoFutureDates annotation for each of `agencies`, and nothing else. */
  ghost predicate FlagsExactly(added: seq<Annotation>, agencies: set<string>)
  {
    && (forall a :: a in added ==> a.NoFutureDates?)
    && FlaggedAgencies(added) == agencies
    && |added| == |agencies|
  }

  /**
   * One step of annotating agencies without future dates: visiting `agency` annotates it
   * exactly when it has no future dates.
   */
  lemma FlagsExactlyStep(added: seq<Annotation>, agencies: set<string>, rest: set<string>, withFuture: set<string>, agency: string)
    requires rest <= agencies && agency in rest
    requires FlagsExactly(added, (agencies - rest) - withFuture)
    ensures agency in withFuture ==>
      FlagsExactly(added, (agencies - (rest - {agency})) - withFuture)
    ensures agency !in withFuture ==>
      FlagsExactly(added + [NoFutureDates(agency)], (agencies - (rest - {agency})) - withFuture)
  {
    FlaggedAgenciesAppend(added, NoFutureDates(agency));
    assert (agencies - (rest - {agency})) - withFuture
        == ((agencies - rest) - withFuture) + (if agency in withFuture then {} else {agency});
    assert agency !in (agencies - rest) - withFuture;
    var added' := added + [NoFutureDates(agency)];
    assert forall i :: 0 <= i < |added| ==> added'[i] == added[i];
  }

  /**
   * The log `after` is the log `before` followed by one NoFutureDates annotation for each
   * of `agencies`; a missing log stays missing.
   */
  ghost predicate LogExtendedBy(before: Option<seq<Annotation>>, after: Option<seq<Annotation>>, agencies: set<string>)
  {
    && (before.None? ==> after.None?)
    && (before.Some? ==>
          && after.Some?
          && |before.value| <= |after.value|
          && after.value[..|before.value|] == before.value
          && FlagsExactly(after.value[|before.value|..], agencies))
  }

  /** Appending an annotation to the log flags at most its own agency. */
  lemma FlaggedAgenciesAppend(log: seq<Annotation>, a: Annotation)
    ensures FlaggedAgencies(log + [a]) == FlaggedAgencies(log) + (if a.NoFutureDates? then {a.agencyId} else {})
  {
    var log' := log + [a];
    assert forall i :: 0 <= i < |log| ==> log'[i] == log[i];
    assert log'[|log|] == a;
  }

  /* ---------- transit feed validity ---------- */

  datatype ServiceId = ServiceId(agencyId: string, id: string)

  /** For each service id, its service dates, each as the epoch second at which the day starts. */
  type CalendarData = map<ServiceId, seq<int>>

  ghost predicate IsServiceInstant(data: CalendarData, t: int)
  {
    exists sid :: sid in data && t in data[sid]
  }

  /** The agencies of the service ids among `sids`. */
  ghost function AgenciesAmong(data: CalendarData, sids: set<ServiceId>): set<string>
  {
    set sid | sid in sids && sid in data :: sid.agencyId
  }

  ghost function AgenciesOf(data: CalendarData): set<string>
  {
    AgenciesAmong(data, data.Keys)
  }

  ghost predicate HasDateAfter(dates: seq<int>, now: int)
  {
    exists t :: t in dates && t > now
  }

  lemma HasDateAfterAppend(dates: seq<int>, t: int, now: int)
    ensures HasDateAfter(dates + [t], now) <==> HasDateAfter(dates, now) || t > now
  {
    if HasDateAfter(dates, now) {
      var x :| x in dates && x > now;
      assert x in dates + [t];
    }
    if t > now {
      assert t in dates + [t];
    }
  }

  /** The agencies of the service ids among `sids` that have a service date after `now`. */
  ghost function FutureAgenciesAmong(data: CalendarData, sids: set<ServiceId>, now: int): set<string>
  {
    set sid | sid in sids && sid in data && HasDateAfter(data[sid], now) :: sid.agencyId
  }

  ghost function AgenciesWithFutureDates(data: CalendarData, now: int): set<string>
  {
    FutureAgenciesAmong(data, data.Keys, now)
  }

  lemma AgenciesAmongAdd(data: CalendarData, sids: set<ServiceId>, sid: ServiceId, now: int)
    requires sid in data
    ensures AgenciesAmong(data, sids + {sid}) == AgenciesAmong(data, sids) + {sid.agencyId}
    ensures FutureAgenciesAmong(data, sids + {sid}, now)
         == FutureAgenciesAmong(data, sids, now) + (if HasDateAfter(data[sid], now) then {sid.agencyId} else {})
  {
  }

  /** Every service date of the ids among `sids` lies in [starts, ends - SEC_IN_DAY]. */
  ghost predicate WindowSpans(starts: int, ends: int, data: CalendarData, sids: set<ServiceId>)
  {
    forall sid, t :: sid in sids && sid in data && t in data[sid] ==> starts <= t && t + SEC_IN_DAY <= ends
  }

  /** A window that spans the dates of `sids`, widened to span those of `sid`, spans both. */
  lemma WindowSpansAdd(starts: int, ends: int, starts': int, ends': int, data: CalendarData, sids: set<ServiceId>, sid: ServiceId)
    requires WindowSpans(starts, ends, data, sids) && starts' <= starts && ends <= ends'
    requires sid in data
    requires forall t :: t in data[sid] ==> starts' <= t && t + SEC_IN_DAY <= ends'
    ensures WindowSpans(starts', ends', data, sids + {sid})
  {
  }

  /** The agencies for which no service id has a service date after `now`. */
  ghost function StaleAgencies(data: CalendarData, now: int): set<string>
  {
    AgenciesOf(data) - AgenciesWithFutureDates(data, now)
  }

  /* ---------- agencies ---------- */

  datatype Agency = Agency(id: string, name: string)

  /* ---------- build versions ---------- */

  /** A build version; the version proper is major.minor.incremental-qualifier, the commit is separate. */
  datatype MavenVersion = MavenVersion(major: int, minor: int, incremental: int, qualifier: string, commit: string)
  {
    /** MavenVersion.equals: the version number and qualifier, not the commit. */
    predicate SameVersion(other: MavenVersion)
    {
      major == other.major && minor == other.minor && incremental == other.incremental
      && qualifier == other.qualifier
    }
  }

  /**
   * graphVersionMismatch: may a graph built by `stored` be loaded by `running`?
   * A different version is always refused; a different commit of the same version is
   * tolerated only for SNAPSHOT builds.
   */
  function GraphVersionMismatch(running: MavenVersion, stored: MavenVersion): (mismatch: bool)
    ensures !running.SameVersion(stored) ==> mismatch
    ensures running.commit == stored.commit ==> (mismatch <==> !running.SameVersion(stored))
    ensures running.qualifier == "SNAPSHOT" ==> (mismatch <==> !running.SameVersion(stored))
  {
    if !running.SameVersion(stored) then true
    else if running.commit != stored.commit then
      running.qualifier != "SNAPSHOT"
    else false
  }

  /** The version gate in one line: it refuses exactly these stored versions. */
  lemma VersionGate(running: MavenVersion, stored: MavenVersion)
    ensures GraphVersionMismatch(running, stored) <==>
      (!running.SameVersion(stored)
       || (running.commit != stored.commit && running.qualifier != "SNAPSHOT"))
    ensures !GraphVersionMismatch(running, running)
  {
  }

  /* ---------- saved graphs ---------- */

  /** The non-transient fields of a Graph: what writing the graph object itself records. */
  datatype GraphHeader = GraphHeader(
    mavenVersion: MavenVersion,
    transitServiceStarts: int,
    transitServiceEnds: int,
    debugData: bool,
    agencyIds: set<string>,
    agencies: set<Agency>)

  /** One object of the saved stream. */
  datatype Record =
    | HeaderRecord(header: GraphHeader)
    | EdgeListRecord(edges: seq<Edge>)
    | AnnotationsRecord(annotations: Option<seq<Annotation>>)
    | VertexIndexRecord(vertexById: map<int, Vertex>)
    | EdgeIndexRecord(edgeById: map<int, Edge>)

  datatype LoadLevel = Basic | Full | Debug

  datatype LoadError =
    | VersionMismatch   // the stored version is refused
    | UnexpectedRecord  // the stream ends early or holds another kind of object
    | NullEndpoint      // an edge with a null endpoint

  ghost function Elems(es: seq<Edge>): set<Edge>
  {
    set e | e in es
  }

  ghost predicate EndpointsPresent(es: seq<Edge>)
  {
    forall e :: e in es ==> e.from.Some? && e.to.Some?
  }

  /** The vertices an edge list mentions. */
  function Endpoints(es: seq<Edge>): set<Vertex>
  {
    (set e | e in es && e.from.Some? :: e.from.value) + (set e | e in es && e.to.Some? :: e.to.value)
  }

  function Labels(vs: set<Vertex>): set<string>
  {
    set v | v in vs :: v.name
  }

  /**
   * The label map that loading rebuilds from the edge list: for each edge in order, its
   * from-vertex and then its to-vertex are put under their labels (later puts win).
   */
  function EndpointMap(es: seq<Edge>): map<string, Vertex>
    requires EndpointsPresent(es)
  {
    if es == [] then map[]
    else
      var e := es[|es| - 1];
      EndpointMap(es[..|es| - 1])[e.from.value.name := e.from.value][e.to.value.name := e.to.value]
  }

  /** The outgoing lists restored for the vertices of a loaded edge list. */
  function OutgoingFrom(es: seq<Edge>): EdgeLists
  {
    map v | v in Endpoints(es) :: set e | e in es && e.from == Some(v)
  }

  /** The incoming lists restored for the vertices of a loaded edge list. */
  function IncomingFrom(es: seq<Edge>): EdgeLists
  {
    map v | v in Endpoints(es) :: set e | e in es && e.to == Some(v)
  }

  /**
   * The rebuilt label map files every endpoint's label, and nothing else, under one of the
   * endpoints that carry that label.
   */
  lemma {:induction false} EndpointMapFilesEndpoints(es: seq<Edge>)
    requires EndpointsPresent(es)
    ensures EndpointMap(es).Keys == Labels(Endpoints(es))
    ensures forall l :: l in EndpointMap(es) ==> EndpointMap(es)[l] in Endpoints(es)
    ensures LabelsConsistent(EndpointMap(es))
  {
    if es != [] {
      var init := es[..|es| - 1];
      var e := es[|es| - 1];
      assert EndpointsPresent(init) by {
        forall x | x in init ensures x.from.Some? && x.to.Some? {
          assert x in es;
        }
      }
      EndpointMapFilesEndpoints(init);
      assert es == init + [e];
      assert Endpoints(es) == Endpoints(init) + {e.from.value, e.to.value};
    }
  }

  /** The restored edge lists are consistent. */
  lemma RestoredListsConsistent(es: seq<Edge>)
    requires EndpointsPresent(es)
    ensures EdgeListsConsistent(IncomingFrom(es), OutgoingFrom(es))
  {
  }

  /** The label map without its edgeless vertices. */
  ghost function WithoutEdgeless(vertices: map<string, Vertex>, incoming: EdgeLists, outgoing: EdgeLists): map<string, Vertex>
  {
    map l | l in vertices && Degree(incoming, outgoing, vertices[l]) > 0 :: vertices[l]
  }

  /**
   * Pruning keeps exactly the vertices that have an edge, under their labels, and leaves
   * nothing more to prune.
   */
  lemma WithoutEdgelessKeepsEdgedVertices(vertices: map<string, Vertex>, incoming: EdgeLists, outgoing: EdgeLists)
    ensures forall l :: l in WithoutEdgeless(vertices, incoming, outgoing) <==>
      l in vertices && Degree(incoming, outgoing, vertices[l]) > 0
    ensures forall l :: l in WithoutEdgeless(vertices, incoming, outgoing) ==>
      WithoutEdgeless(vertices, incoming, outgoing)[l] == vertices[l]
    ensures EdgelessLabels(WithoutEdgeless(vertices, incoming, outgoing), incoming, outgoing) == {}
    ensures WithoutEdgeless(WithoutEdgeless(vertices, incoming, outgoing), incoming, outgoing)
         == WithoutEdgeless(vertices, incoming, outgoing)
  {
  }

  /** Dropping the edgeless labels from the label map leaves exactly the vertices with an edge. */
  lemma WithoutEdgelessIsRemoval(vertices: map<string, Vertex>, incoming: EdgeLists, outgoing: EdgeLists)
    ensures WithoutEdgeless(vertices, incoming, outgoing) == vertices - EdgelessLabels(vertices, incoming, outgoing)
  {
  }

  /** Every endpoint of the saved edge list is a vertex of the label map that has an edge. */
  lemma SavedEndpointHasEdge(vertices: map<string, Vertex>, incoming: EdgeLists, outgoing: EdgeLists, es: seq<Edge>, v: Vertex)
    requires LabelsConsistent(vertices) && EdgeListsConsistent(incoming, outgoing)
    requires Closed(vertices, incoming, outgoing)
    requires Elems(es) == AllOut(vertices.Keys, vertices, outgoing)
    requires v in Endpoints(es)
    ensures InLabelMap(vertices, v) && Degree(incoming, outgoing, v) > 0
  {
    var e :| e in es && (e.from == Some(v) || e.to == Some(v));
    assert e in Elems(es);
    var l :| l in vertices && e in EdgesOf(outgoing, vertices[l]);
    assert e.from == Some(vertices[l]);
    if e.from != Some(v) {
      assert e in EdgesOf(incoming, v);
    }
  }

  /** Every vertex of the label map that has an edge is an endpoint of the saved edge list. */
  lemma VertexWithEdgeIsSaved(vertices: map<string, Vertex>, incoming: EdgeLists, outgoing: EdgeLists, es: seq<Edge>, l: string)
    requires LabelsConsistent(vertices) && EdgeListsConsistent(incoming, outgoing)
    requires Closed(vertices, incoming, outgoing)
    requires Elems(es) == AllOut(vertices.Keys, vertices, outgoing)
    requires l in vertices && Degree(incoming, outgoing, vertices[l]) > 0
    ensures vertices[l] in Endpoints(es)
  {
    var v := vertices[l];
    if EdgesOf(outgoing, v) != {} {
      var e :| e in EdgesOf(outgoing, v);
      assert e in AllOut(vertices.Keys, vertices, outgoing);
      assert e in Elems(es);
      assert e.from == Some(v);
    } else {
      var e :| e in EdgesOf(incoming, v);
      var u := e.from.value;
      assert InLabelMap(vertices, u);
      assert e in EdgesOf(outgoing, u);
      assert e in AllOut(vertices.Keys, vertices, outgoing);
      assert e in Elems(es);
      assert e.to == Some(v);
    }
  }

  /**
   * What save writes as its edge list is the union of the outgoing lists; what load rebuilds
   * from it is, for a consistent graph whose edges stay among its vertices, exactly the label
   * map without its edgeless vertices.
   */
  lemma {:induction false} LoadRebuildsVerticesWithEdges(vertices: map<string, Vertex>, incoming: EdgeLists, outgoing: EdgeLists, es: seq<Edge>)
    requires LabelsConsistent(vertices) && EdgeListsConsistent(incoming, outgoing)
    requires Closed(vertices, incoming, outgoing)
    requires Elems(es) == AllOut(vertices.Keys, vertices, outgoing)
    ensures EndpointsPresent(es)
    ensures EndpointMap(es) == WithoutEdgeless(vertices, incoming, outgoing)
  {
    var kept := WithoutEdgeless(vertices, incoming, outgoing);
    assert EndpointsPresent(es) by {
      forall e | e in es ensures e.from.Some? && e.to.Some? {
        assert e in Elems(es);
      }
    }
    EndpointMapFilesEndpoints(es);
    var rebuilt := EndpointMap(es);
    forall l | l in rebuilt
      ensures l in kept && rebuilt[l] == kept[l]
    {
      var v := rebuilt[l];
      SavedEndpointHasEdge(vertices, incoming, outgoing, es, v);
    }
    forall l | l in kept
      ensures l in rebuilt
    {
      VertexWithEdgeIsSaved(vertices, incoming, outgoing, es, l);
      assert vertices[l].name == l;
    }
  }

  /**
   * When no two endpoints share a label, the restored lists reached through the rebuilt
   * label map hold exactly the loaded edges.
   */
  lemma RestoredEdgesAreLoaded(es: seq<Edge>)
    requires EndpointsPresent(es)
    requires forall v :: v in Endpoints(es) ==> InLabelMap(EndpointMap(es), v)
    ensures AllOut(EndpointMap(es).Keys, EndpointMap(es), OutgoingFrom(es)) == Elems(es)
  {
    var rebuilt := EndpointMap(es);
    var restored := OutgoingFrom(es);
    forall e | e in Elems(es)
      ensures e in AllOut(rebuilt.Keys, rebuilt, restored)
    {
      var v := e.from.value;
      assert v in Endpoints(es);
      assert e in EdgesOf(restored, v);
    }
  }

  /**
   * Saving and loading a consistent, closed graph keeps its edges: the edges reachable
   * through the rebuilt label map and restored outgoing lists are the saved ones, and
   * countEdges() is unchanged.
   */
  lemma {:induction false} LoadKeepsEdges(vertices: map<string, Vertex>, incoming: EdgeLists, outgoing: EdgeLists, es: seq<Edge>)
    requires LabelsConsistent(vertices) && EdgeListsConsistent(incoming, outgoing)
    requires Closed(vertices, incoming, outgoing)
    requires Elems(es) == AllOut(vertices.Keys, vertices, outgoing)
    ensures EndpointsPresent(es)
    ensures AllOut(EndpointMap(es).Keys, EndpointMap(es), OutgoingFrom(es)) == Elems(es)
    ensures SumOutDegrees(EndpointMap(es).Keys, EndpointMap(es), OutgoingFrom(es))
         == SumOutDegrees(vertices.Keys, vertices, outgoing)
  {
    LoadRebuildsVerticesWithEdges(vertices, incoming, outgoing, es);
    EndpointMapFilesEndpoints(es);
    var rebuilt := EndpointMap(es);
    forall v | v in Endpoints(es)
      ensures InLabelMap(rebuilt, v)
    {
      SavedEndpointHasEdge(vertices, incoming, outgoing, es, v);
    }
    RestoredEdgesAreLoaded(es);
    RestoredListsConsistent(es);
    ConsistentListsAreOwned(IncomingFrom(es), OutgoingFrom(es));
    SumOutDegreesCountsEdges(rebuilt.Keys, rebuilt, OutgoingFrom(es));
    ConsistentListsAreOwned(incoming, outgoing);
    SumOutDegreesCountsEdges(vertices.Keys, vertices, outgoing);
  }
}
