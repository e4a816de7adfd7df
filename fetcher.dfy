/**
 * One fetch of one robot and the edge-triggered error accounting around it.
 * The robot's previous outcome is remembered ("success" for a robot never
 * seen); a failure records an error in the ledger only when the previous
 * outcome was a success, so a sustained outage counts once.
 */
module Fetcher {
  import opened Wrappers
  import opened Text
  import opened Dates
  import opened Ledger
  import opened Payload
  import opened Raster

  /** The last outcome remembered per robot. */
  datatype RobotState = Succeeded | Errored

  /** What the HTTP request produced: a decoded JSON object, or why there is none. */
  datatype Reply = NoReply(reason: string) | Reply(data: JsonObject)

  /** Base64 decoding followed by image decoding: the image, or the library's error message. */
  type Decoder = string -> Result<Image, string>

  /**
   * The outcome of one fetch: the decoded image, or the first failure on
   * the way (request, payload search, decoding, writing the frame to the
   * archive, in that order).
   */
  function Attempt(reply: Reply, decode: Decoder, saveFailure: Option<string>): Result<Image, FetchError>
  {
    match reply
    case NoReply(reason) => Failure(RequestFailed(reason))
    case Reply(data) =>
      match ExtractBase64(data)
      case Failure(e) => Failure(e)
      case Success(text) =>
        match decode(text)
        case Failure(reason) => Failure(DecodeFailed(reason))
        case Success(img) =>
          match saveFailure
          case Some(reason) => Failure(SaveFailed(reason))
          case None => Success(img)
  }

  /** A reply without a usable payload fails with the "no base64 data" message. */
  lemma AttemptWithoutPayload(data: JsonObject, decode: Decoder, saveFailure: Option<string>)
    requires FirstPresent(data, PriorityKeys).None? || !Truthy(FirstPresent(data, PriorityKeys).value)
    requires forall j :: 0 <= j < |data| ==> !IsLongString(data[j].1)
    ensures Attempt(Reply(data), decode, saveFailure) == Failure(NoPayload)
  {
    NoPayloadSelected(data);
    AttemptOfExtractFailure(data, decode, saveFailure);
  }

  lemma AttemptOfExtractFailure(data: JsonObject, decode: Decoder, saveFailure: Option<string>)
    requires ExtractBase64(data).Failure?
    ensures Attempt(Reply(data), decode, saveFailure) == Failure(ExtractBase64(data).error)
  {
  }

  /** The fetcher's state and the ledger it writes, taken together. */
  datatype Monitor = Monitor(counts: Counts, states: map<string, RobotState>)

  function Previous(states: map<string, RobotState>, robot: string): RobotState
  {
    if robot in states then states[robot] else Succeeded
  }

  /** An event in one robot's history: a successful fetch (with the pruning draw) or a failed one. */
  datatype Event = Ok(prune: bool) | Fail

  /** The state change of one fetch of `robot` on day `today`. */
  function Transition(m: Monitor, robot: string, e: Event, today: Date): Monitor
    requires IsValid(today) && DayNumber(today) >= WindowDays
  {
    match e
    case Ok(prune) =>
      Monitor(if prune then Pruned(m.counts, Cutoff(today)) else m.counts, m.states[robot := Succeeded])
    case Fail =>
      Monitor(if Previous(m.states, robot) == Succeeded then Recorded(m.counts, robot, FormatIso(today)) else m.counts,
              m.states[robot := Errored])
  }

  /**
   * A failure sets the robot's state to "error" and adds one to its 7-day
   * total exactly when the previous state was "success"; a success sets the
   * state to "success" and, pruning or not, leaves every 7-day total as it
   * was. Other robots' states and totals never change.
   */
  lemma TransitionEffect(m: Monitor, robot: string, e: Event, today: Date, rb: string)
    requires IsValid(today) && DayNumber(today) >= WindowDays
    ensures Transition(m, robot, e, today).states[robot] == (if e.Fail? then Errored else Succeeded)
    ensures rb != robot ==> Previous(Transition(m, robot, e, today).states, rb) == Previous(m.states, rb)
    ensures WindowTotal(Transition(m, robot, e, today).counts, rb, Cutoff(today))
         == WindowTotal(m.counts, rb, Cutoff(today))
            + (if e.Fail? && rb == robot && Previous(m.states, robot) == Succeeded then 1 else 0)
  {
    var c := Cutoff(today);
    match e
    case Ok(prune) =>
      if prune {
        PrunedWindowTotal(m.counts, rb, c);
      }
    case Fail =>
      if Previous(m.states, robot) == Succeeded {
        RecordedWindowTotal(m.counts, robot, FormatIso(today), rb, c);
        WindowIsSevenDays(today, today);
      }
  }

  /** A failure increments the cell of (robot, today) by one or by nothing, and no other cell. */
  lemma FailureCells(m: Monitor, robot: string, today: Date, rb: string, day: string)
    requires IsValid(today) && DayNumber(today) >= WindowDays
    ensures Cell(Transition(m, robot, Fail, today).counts, rb, day)
         == Cell(m.counts, rb, day)
            + (if rb == robot && day == FormatIso(today) && Previous(m.states, robot) == Succeeded then 1 else 0)
  {
  }

  /** The state after a run of fetches of one robot. */
  function Run(m: Monitor, robot: string, events: seq<Event>, today: Date): Monitor
    requires IsValid(today) && DayNumber(today) >= WindowDays
    decreases |events|
  {
    if events == [] then m else Run(Transition(m, robot, events[0], today), robot, events[1..], today)
  }

  /** How many outages begin in `events`: failures that follow a success (or the starting state `prev`). */
  function Onsets(prev: RobotState, events: seq<Event>): nat
    decreases |events|
  {
    if events == [] then 0
    else
      (if events[0].Fail? && prev == Succeeded then 1 else 0)
      + Onsets(if events[0].Fail? then Errored else Succeeded, events[1..])
  }

  /**
   * Edge-triggered counting: over any run of fetches on one day, a robot's
   * 7-day total grows by the number of outage onsets, not the number of
   * failures.
   */
  lemma {:induction false} RunCountsOnsets(m: Monitor, robot: string, events: seq<Event>, today: Date)
    requires IsValid(today) && DayNumber(today) >= WindowDays
    ensures WindowTotal(Run(m, robot, events, today).counts, robot, Cutoff(today))
         == WindowTotal(m.counts, robot, Cutoff(today)) + Onsets(Previous(m.states, robot), events)
    ensures events != [] ==> Previous(Run(m, robot, events, today).states, robot)
                             == (if events[|events| - 1].Fail? then Errored else Succeeded)
    decreases |events|
  {
    if events != [] {
      var next := Transition(m, robot, events[0], today);
      TransitionEffect(m, robot, events[0], today, robot);
      RunCountsOnsets(next, robot, events[1..], today);
      if |events| > 1 {
        assert events[1..][|events[1..]| - 1] == events[|events| - 1];
      }
    }
  }

  /** Fetches of one robot never change another robot's 7-day total. */
  lemma {:induction false} RunLeavesOthers(m: Monitor, robot: string, events: seq<Event>, today: Date, other: string)
    requires IsValid(today) && DayNumber(today) >= WindowDays && other != robot
    ensures WindowTotal(Run(m, robot, events, today).counts, other, Cutoff(today))
         == WindowTotal(m.counts, other, Cutoff(today))
    decreases |events|
  {
    if events != [] {
      TransitionEffect(m, robot, events[0], today, other);
      RunLeavesOthers(Transition(m, robot, events[0], today), robot, events[1..], today, other);
    }
  }

  function Failures(n: nat): (r: seq<Event>)
    ensures |r| == n && forall i :: 0 <= i < n ==> r[i] == Fail
  {
    seq(n, _ => Fail)
  }

  lemma {:induction false} OnsetsOfFailures(prev: RobotState, n: nat, rest: seq<Event>)
    requires n >= 1
    ensures Onsets(prev, Failures(n) + rest)
         == (if prev == Succeeded then 1 else 0) + Onsets(Errored, rest)
    decreases n
  {
    var es := Failures(n) + rest;
    assert es[1..] == Failures(n - 1) + rest;
    if n > 1 {
      OnsetsOfFailures(Errored, n - 1, rest);
    }
  }

  /**
   * N >= 1 failures, one success, then M >= 1 failures add exactly 2 to the
   * 7-day total of a robot last seen succeeding (as an unseen robot is).
   */
  lemma TwoOutagesCountTwice(m: Monitor, robot: string, n: nat, prune: bool, k: nat, today: Date)
    requires IsValid(today) && DayNumber(today) >= WindowDays
    requires n >= 1 && k >= 1 && Previous(m.states, robot) == Succeeded
    ensures WindowTotal(Run(m, robot, Failures(n) + [Ok(prune)] + Failures(k), today).counts, robot, Cutoff(today))
         == WindowTotal(m.counts, robot, Cutoff(today)) + 2
  {
    var es := Failures(n) + [Ok(prune)] + Failures(k);
    assert es == Failures(n) + ([Ok(prune)] + Failures(k));
    OnsetsOfFailures(Succeeded, n, [Ok(prune)] + Failures(k));
    assert ([Ok(prune)] + Failures(k))[1..] == Failures(k) + [];
    OnsetsOfFailures(Succeeded, k, []);
    RunCountsOnsets(m, robot, es, today);
  }

  /** `get_robot_image` keeps the per-robot outcome map and writes the shared ledger. */
  class RobotImageFetcher {
    var previousStates: map<string, RobotState>
    const ledger: ErrorLedger

    constructor (ledger: ErrorLedger)
      ensures this.ledger == ledger && previousStates == map[]
    {
      this.ledger := ledger;
      previousStates := map[];
    }

    ghost function State(): Monitor
      reads this, ledger
    {
      Monitor(ledger.counts, previousStates)
    }

    /** Request, payload search, prefix strip, decoding and archiving, as one outcome. */
    static method Fetch(reply: Reply, decode: Decoder, saveFailure: Option<string>) returns (r: Result<Image, FetchError>)
      ensures r == Attempt(reply, decode, saveFailure)
    {
      match reply {
        case NoReply(reason) =>
          return Failure(RequestFailed(reason));
        case Reply(data) =>
          var found := FindPayload(data);
          if found.Failure? {
            return Failure(found.error);
          }
          if !found.value.JString? {
            return Failure(PayloadNotString);
          }
          var text := StripDataUrlPrefix(found.value.s);
          var decoded := decode(text);
          if decoded.Failure? {
            return Failure(DecodeFailed(decoded.error));
          }
          if saveFailure.Some? {
            return Failure(SaveFailed(saveFailure.value));
          }
          return Success(decoded.value);
      }
    }

    /**
     * `get_robot_image`: on success the frame and the count read before any
     * update; on failure a black 640x480 placeholder, the error and the
     * count read after the possible increment. `prune` is the 1% draw that
     * triggers `cleanup_old_error_counts` after a success.
     */
    method GetRobotImage(robot: string, reply: Reply, decode: Decoder, saveFailure: Option<string>,
                         today: Date, prune: bool)
      returns (tile: Image, error: Option<FetchError>, shownCount: int)
      requires IsValid(today) && DayNumber(today) >= WindowDays
      modifies this, ledger
      ensures old(ledger.Valid()) ==> ledger.Valid()
      ensures var outcome := Attempt(reply, decode, saveFailure);
        State() == Transition(old(State()), robot, if outcome.Success? then Ok(prune) else Fail, today)
      ensures var outcome := Attempt(reply, decode, saveFailure);
        outcome.Success? ==> tile == outcome.value && error == None
                             && shownCount == WindowTotal(old(ledger.counts), robot, Cutoff(today))
      ensures var outcome := Attempt(reply, decode, saveFailure);
        outcome.Failure? ==> tile == Blank(PlaceholderWidth, PlaceholderHeight) && error == Some(outcome.error)
                             && shownCount == WindowTotal(ledger.counts, robot, Cutoff(today))
    {
      var previous := if robot in previousStates then previousStates[robot] else Succeeded;
      var outcome := Fetch(reply, decode, saveFailure);
      if outcome.Success? {
        shownCount := ledger.GetErrorCount(robot, today);
        tile, error := outcome.value, None;
        previousStates := previousStates[robot := Succeeded];
        if prune {
          ledger.CleanupOldErrorCounts(today);
        }
      } else {
        if previous == Succeeded {
          ledger.RecordError(robot, today);
        }
        previousStates := previousStates[robot := Errored];
        shownCount := ledger.GetErrorCount(robot, today);
        tile, error := Blank(PlaceholderWidth, PlaceholderHeight), Some(outcome.error);
      }
    }
  }
}
