/**
 * The pre-alight edge of the routing layer: the edge from a stop's arrival vertex to the
 * transit stop itself. Searching backwards (arrive-by), it is where the local-stop rules, the
 * transfer limit, boarding slack, the transfer table and the transfer penalties are applied
 * once per stop; searching forwards it only adds the alighting slack and some bookkeeping.
 *
 * Traversal maps a state to a successor state, to no state (the edge cannot be used from
 * here), or to the fault raised for a transfer-table value of no known kind.
 */
module PreAlight {
  import opened Wrappers

  type StopId = string

  /** The traverse modes the edge deals with: it only ever records ALIGHTING. */
  datatype TraverseMode = Alighting | OtherMode(name: string)

  /** A transit stop; a local stop is one where riders may alight but not go on riding. */
  datatype TransitStop = TransitStop(name: StopId, isLocal: bool)

  /** The edge: from the stop's arrival vertex to the stop itself. */
  datatype PreAlightEdge = PreAlightEdge(fromVertex: StopId, toStop: TransitStop)

  /** The traveller's state at a vertex during the search. */
  datatype State = State(
    timeSeconds: int,
    weight: int,
    numBoardings: int,
    everBoarded: bool,
    alightedLocal: bool,
    lastAlightedTime: int,
    previousStop: StopId,
    backMode: Option<TraverseMode>)

  /** The options of a routing request that the edge reads. */
  datatype RoutingRequest = RoutingRequest(
    arriveBy: bool,
    transitSelected: bool,
    maxTransfers: int,
    boardSlack: int,
    alightSlack: int,
    transferSlack: int,
    transferPenalty: int,
    nonpreferredTransferPenalty: int)

  /**
   * What the transfer table says about a pair of stops: no rule, a minimum transfer time in
   * seconds (zero being a timed transfer), forbidden, preferred, or some other value the
   * edge does not know how to handle.
   */
  datatype TransferTime =
    | UnknownTransfer
    | MinimumTime(seconds: nat)
    | ForbiddenTransfer
    | PreferredTransfer
    | UndefinedValue(code: int)

  /** The transfer table: explicit entries for stop pairs, and whether any is preferred. */
  datatype TransferTable = TransferTable(
    hasPreferredTransfers: bool,
    times: map<(StopId, StopId), TransferTime>)

  /** The outcome of a traversal; NoSuccessor is Java's null. */
  datatype TraverseResult =
    | Successor(state: State)
    | NoSuccessor
    | UndefinedTransferValue

  /** How the construction of an edge fails: the target is not a transit stop. */
  datatype EdgeError = NotATransitStop

  /**
   * The constructor: the target must be a transit stop, otherwise the edge is refused.
   */
  function NewPreAlightEdge(from: StopId, to: Option<TransitStop>): (r: Result<PreAlightEdge, EdgeError>)
    ensures r.Success? <==> to.Some?
    ensures r.Success? ==> r.value.fromVertex == from && r.value.toStop == to.value
    ensures r.Failure? ==> r.error == NotATransitStop
  {
    match to
    case None => Failure(NotATransitStop)
    case Some(stop) => Success(PreAlightEdge(from, stop))
  }

  /** getMode: the edge's mode, which every traversal records as the back mode. */
  function Mode(): (m: TraverseMode)
    ensures m == Alighting
  {
    Alighting
  }

  /** The table lookup; a stop pair without an entry has no rule. */
  function GetTransferTime(table: TransferTable, from: StopId, to: StopId): TransferTime
  {
    if (from, to) in table.times then table.times[(from, to)] else UnknownTransfer
  }

  /** The table entry that governs a transfer onto this edge from the previous stop. */
  function EntryFor(e: PreAlightEdge, s0: State, table: TransferTable): TransferTime {
    GetTransferTime(table, e.fromVertex, s0.previousStop)
  }

  /* ---------- reference definitions of the arrive-by rules ---------- */

  /**
   * The states from which the edge refuses to board, whatever the transfer table says: no
   * transit mode selected, alighted at a local stop, a local stop after an earlier boarding,
   * or more boardings than the transfer limit.
   */
  predicate Blocked(e: PreAlightEdge, s0: State, opt: RoutingRequest) {
    || !opt.transitSelected
    || s0.alightedLocal
    || (e.toStop.isLocal && s0.everBoarded)
    || s0.numBoardings > opt.maxTransfers
  }

  /** The slack: transfer minus board slack after an earlier boarding, else the alight slack. */
  function Slack(s0: State, opt: RoutingRequest): int {
    if s0.everBoarded then opt.transferSlack - opt.boardSlack else opt.alightSlack
  }

  function Min(a: int, b: int): (m: int)
    ensures m <= a && m <= b && (m == a || m == b)
  {
    if a <= b then a else b
  }

  /** Whether the traversal is a transfer (some earlier alighting) rather than a first boarding. */
  predicate IsTransfer(s0: State) {
    s0.lastAlightedTime != 0
  }

  /**
   * The deadline a successor gets: the slack-derived one, or, for a transfer with a minimum
   * time in the table, the earlier of that and the last alighting minus the minimum time.
   */
  function Deadline(e: PreAlightEdge, s0: State, opt: RoutingRequest, table: TransferTable): int {
    var slackDeadline := s0.timeSeconds - Slack(s0, opt);
    var tt := EntryFor(e, s0, table);
    if IsTransfer(s0) && tt.MinimumTime? then Min(slackDeadline, s0.lastAlightedTime - tt.seconds)
    else slackDeadline
  }

  /**
   * The table part of the penalty: the non-preferred penalty exactly for a transfer, in a
   * table that has preferred transfers, whose entry is no rule or a positive minimum time.
   */
  function TablePenalty(e: PreAlightEdge, s0: State, opt: RoutingRequest, table: TransferTable): int {
    var tt := EntryFor(e, s0, table);
    if IsTransfer(s0) && table.hasPreferredTransfers
       && (tt.UnknownTransfer? || (tt.MinimumTime? && tt.seconds > 0))
    then opt.nonpreferredTransferPenalty
    else 0
  }

  /** The flat part of the penalty: the transfer penalty after any earlier boarding. */
  function FlatPenalty(s0: State, opt: RoutingRequest): int {
    if s0.everBoarded then opt.transferPenalty else 0
  }

  /* ---------- traverse ---------- */

  /** The transfer-table step of the arrive-by branch: a deadline and a table penalty, or not. */
  datatype TransferRule = Board(deadline: int, tablePenalty: int) | Refuse | Fault

  /**
   * The transfer rules: no lookup for a first boarding; for a transfer, the non-preferred
   * penalty when the table has preferred transfers, then the entry decides: no rule keeps
   * the slack deadline, a minimum time may make it earlier (and zero makes the transfer
   * penalty-free), forbidden refuses, preferred removes the penalty, anything else faults.
   */
  function ApplyTransferTable(e: PreAlightEdge, s0: State, opt: RoutingRequest, table: TransferTable)
    : (r: TransferRule)
    ensures r == Refuse <==> IsTransfer(s0) && EntryFor(e, s0, table) == ForbiddenTransfer
    ensures r == Fault <==> IsTransfer(s0) && EntryFor(e, s0, table).UndefinedValue?
    ensures r.Board? ==> r.deadline == Deadline(e, s0, opt, table)
    ensures r.Board? ==> r.deadline <= s0.timeSeconds - Slack(s0, opt)
    ensures r.Board? ==> r.tablePenalty == TablePenalty(e, s0, opt, table)
  {
    var alightBefore := s0.timeSeconds - Slack(s0, opt);
    if !IsTransfer(s0) then
      Board(alightBefore, 0)
    else
      var penalty := if table.hasPreferredTransfers then opt.nonpreferredTransferPenalty else 0;
      match GetTransferTime(table, e.fromVertex, s0.previousStop)
      case UnknownTransfer => Board(alightBefore, penalty)
      case MinimumTime(d) =>
        var tableAlightBefore := s0.lastAlightedTime - d;
        Board(if tableAlightBefore < alightBefore then tableAlightBefore else alightBefore,
              if d == 0 then 0 else penalty)
      case ForbiddenTransfer => Refuse
      case PreferredTransfer => Board(alightBefore, 0)
      case UndefinedValue(_) => Fault
  }

  /**
   * The arrive-by branch of traverse: refuses blocked states, applies the transfer rules,
   * and boards with the deadline as the new time, paying the wait and the two penalties.
   */
  function TraverseArriveBy(e: PreAlightEdge, s0: State, opt: RoutingRequest, table: TransferTable)
    : (r: TraverseResult)
    ensures Blocked(e, s0, opt) ==> r == NoSuccessor
    ensures r == NoSuccessor <==>
      Blocked(e, s0, opt) || (IsTransfer(s0) && EntryFor(e, s0, table) == ForbiddenTransfer)
    ensures r == UndefinedTransferValue <==>
      !Blocked(e, s0, opt) && IsTransfer(s0) && EntryFor(e, s0, table).UndefinedValue?
    ensures r.Successor? ==>
      && r.state.timeSeconds == Deadline(e, s0, opt, table)
      && r.state.timeSeconds <= s0.timeSeconds - Slack(s0, opt)
      && r.state.weight - s0.weight
         == (s0.timeSeconds - r.state.timeSeconds) + TablePenalty(e, s0, opt, table) + FlatPenalty(s0, opt)
      && r.state.everBoarded
      && r.state.backMode == Some(Mode())
    ensures r.Successor? ==>
      r.state.(timeSeconds := s0.timeSeconds, weight := s0.weight, everBoarded := s0.everBoarded,
               backMode := s0.backMode) == s0
  {
    if !opt.transitSelected then NoSuccessor
    else if s0.alightedLocal then NoSuccessor
    else if e.toStop.isLocal && s0.everBoarded then NoSuccessor
    else if s0.numBoardings > opt.maxTransfers then NoSuccessor
    else
      match ApplyTransferTable(e, s0, opt, table)
      case Refuse => NoSuccessor
      case Fault => UndefinedTransferValue
      case Board(alightBefore, tablePenalty) =>
        var penalty := if s0.everBoarded then tablePenalty + opt.transferPenalty else tablePenalty;
        var waitCost := s0.timeSeconds - alightBefore;
        Successor(s0.(timeSeconds := alightBefore,
                      everBoarded := true,
                      weight := s0.weight + (waitCost + penalty),
                      backMode := Some(Mode())))
  }

  /**
   * The depart-at branch of traverse: marks a local-stop alighting, records the alighting
   * (`alightedAt` is the time StateEditor.alightTransit records), adds the alight slack and
   * the mode. It never refuses.
   */
  function TraverseDepartAt(e: PreAlightEdge, s0: State, opt: RoutingRequest, alightedAt: int)
    : (r: TraverseResult)
    ensures r.Successor?
    ensures r.state.timeSeconds == s0.timeSeconds + opt.alightSlack
    ensures r.state.alightedLocal <==> s0.alightedLocal || e.toStop.isLocal
    ensures r.state.lastAlightedTime == alightedAt
    ensures r.state.backMode == Some(Mode())
    ensures r.state.(timeSeconds := s0.timeSeconds, alightedLocal := s0.alightedLocal,
                     lastAlightedTime := s0.lastAlightedTime, backMode := s0.backMode) == s0
  {
    var s1 := if e.toStop.isLocal then s0.(alightedLocal := true) else s0;
    var s2 := s1.(lastAlightedTime := alightedAt);
    var s3 := s2.(timeSeconds := s2.timeSeconds + opt.alightSlack);
    Successor(s3.(backMode := Some(Mode())))
  }

  /** traverse: the branch the request's direction selects. */
  function Traverse(e: PreAlightEdge, s0: State, opt: RoutingRequest, table: TransferTable, alightedAt: int)
    : (r: TraverseResult)
    ensures !opt.arriveBy ==> r.Successor?
    ensures r.UndefinedTransferValue? ==> opt.arriveBy && IsTransfer(s0)
    ensures r.Successor? ==> r.state.backMode == Some(Mode())
    ensures opt.arriveBy && Blocked(e, s0, opt) ==> r == NoSuccessor
  {
    if opt.arriveBy then TraverseArriveBy(e, s0, opt, table) else TraverseDepartAt(e, s0, opt, alightedAt)
  }

  /**
   * optimisticTraverse: the heuristic traversal leaves out the path-dependent transfer time
   * and penalties, so only the mode changes.
   */
  function OptimisticTraverse(s0: State): (r: State)
    ensures r.timeSeconds == s0.timeSeconds && r.weight == s0.weight
    ensures r.backMode == Some(Mode())
    ensures r.(backMode := s0.backMode) == s0
  {
    s0.(backMode := Some(Mode()))
  }

  /* ---------- properties relating several traversals ---------- */

  /** Request options with no negative slack difference and no negative penalty. */
  predicate NonNegativeCosts(opt: RoutingRequest) {
    && opt.alightSlack >= 0
    && opt.transferSlack >= opt.boardSlack
    && opt.transferPenalty >= 0
    && opt.nonpreferredTransferPenalty >= 0
  }

  /**
   * For a first boarding (no earlier alighting) the transfer table is not consulted: two
   * tables give the same outcome.
   */
  lemma FirstBoardingIgnoresTable(e: PreAlightEdge, s0: State, opt: RoutingRequest,
                                  t1: TransferTable, t2: TransferTable, alightedAt: int)
    requires !IsTransfer(s0)
    ensures Traverse(e, s0, opt, t1, alightedAt) == Traverse(e, s0, opt, t2, alightedAt)
    ensures TablePenalty(e, s0, opt, t1) == 0
  {
  }

  /**
   * A timed transfer (minimum time zero) and a preferred transfer pay no table penalty,
   * and neither does anything in a table without preferred transfers.
   */
  lemma PenaltyFreeTransfers(e: PreAlightEdge, s0: State, opt: RoutingRequest, table: TransferTable)
    requires EntryFor(e, s0, table) in {MinimumTime(0), PreferredTransfer} || !table.hasPreferredTransfers
    ensures TablePenalty(e, s0, opt, table) == 0
  {
  }

  /**
   * With non-negative costs, traversal never lowers the weight: the arrive-by successor pays
   * at least the slack, and depart-at keeps the weight.
   */
  lemma WeightNeverDecreases(e: PreAlightEdge, s0: State, opt: RoutingRequest, table: TransferTable,
                             alightedAt: int)
    requires NonNegativeCosts(opt)
    ensures Traverse(e, s0, opt, table, alightedAt).Successor? ==>
      Traverse(e, s0, opt, table, alightedAt).state.weight >= s0.weight + (if opt.arriveBy then Slack(s0, opt) else 0)
  {
  }

  /**
   * The optimistic traversal is a lower bound: with non-negative costs, its weight is never
   * above that of any successor traverse produces, whatever the table.
   */
  lemma OptimisticIsLowerBound(e: PreAlightEdge, s0: State, opt: RoutingRequest, table: TransferTable,
                               alightedAt: int)
    requires NonNegativeCosts(opt)
    ensures Traverse(e, s0, opt, table, alightedAt).Successor? ==>
      OptimisticTraverse(s0).weight <= Traverse(e, s0, opt, table, alightedAt).state.weight
  {
    WeightNeverDecreases(e, s0, opt, table, alightedAt);
  }

  /**
   * The arrive-by deadline is the earlier of the slack deadline and the table one: a
   * minimum-time rule only ever makes it earlier.
   */
  lemma TableDeadlineNeverLater(e: PreAlightEdge, s0: State, opt: RoutingRequest, table: TransferTable)
    requires IsTransfer(s0) && EntryFor(e, s0, table).MinimumTime?
    ensures Deadline(e, s0, opt, table) <= s0.lastAlightedTime - EntryFor(e, s0, table).seconds
    ensures Deadline(e, s0, opt, table) <= s0.timeSeconds - Slack(s0, opt)
  {
  }
}
