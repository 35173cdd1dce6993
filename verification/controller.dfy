/**
 * The session controller of the browser client
 * (actor/src/main/resources/www/js/app.js): the `$scope` fields that the
 * socket handlers and the registration form update, the three queries the
 * views read, and the outbound registration message.
 *
 * Inbound frames arrive already decoded into Inbound; the socket itself,
 * its reconnection policy and JSON encoding are not part of this model.
 */
module SessionController {
  import opened Wrappers
  import opened Leaderboard

  /** A decoded inbound frame, by its `type`; any other `type` is Unrecognised. */
  datatype Inbound =
    | WaitingStartSignal
    | OpenUserRegistration
    | GameInProgress
    | CurrentResult(currentResult: Attempt)
    | LeaderBoard(leaderBoard: seq<Attempt>)
    | Unrecognised

  /** The form's `user` object: field name to entered text; `{}` is the empty map. */
  type User = map<string, string>

  /** The outbound frame `{type: 'user', user: ...}`. */
  datatype Outbound = UserMessage(user: User)

  /** The game phase the two flags encode. */
  datatype Phase = AwaitingStart | RegistrationOpen | InProgress

  // ---------------------------------------------------------------------------
  // `emotion()`: one message per score band
  // ---------------------------------------------------------------------------

  /** Lower bounds of the score bands after the first. */
  const Thresholds: seq<int> := [200, 400, 700, 1000, 1300, 1600, 2000]

  /** The message of each score band, lowest band first. */
  const Messages: seq<string> := [
    "What to say. Maybe next time.",
    "Not bad but you can do more!",
    "Nice one.",
    "Congratulations!",
    "Boooom! This is how it goes!",
    "Unbeatable!",
    "God mode!",
    "How did you do this??!!"
  ]

  /** The band of `score`, searching upward from band `i`. */
  function BandFrom(score: int, i: nat): (b: nat)
    requires i <= |Thresholds|
    requires i == 0 || Thresholds[i - 1] <= score
    ensures i <= b <= |Thresholds|
    ensures b == 0 || Thresholds[b - 1] <= score
    ensures b == |Thresholds| || score < Thresholds[b]
    decreases |Thresholds| - i
  {
    if i == |Thresholds| || score < Thresholds[i] then i else BandFrom(score, i + 1)
  }

  /** The band of `score`: the `b` with `Thresholds[b - 1] <= score < Thresholds[b]`, open-ended at both ends. */
  function Band(score: int): (b: nat)
    ensures b < |Messages|
    ensures b == 0 || Thresholds[b - 1] <= score
    ensures b == |Thresholds| || score < Thresholds[b]
  {
    BandFrom(score, 0)
  }

  /** Higher scores never fall into a lower band. */
  lemma BandMonotone(s: int, t: int)
    requires s <= t
    ensures Band(s) <= Band(t)
  {
  }

  /** The message `emotion()` gives for a known score. */
  function EmotionFor(score: int): (m: string)
    ensures m == Messages[Band(score)]
    ensures score >= 2000 ==> m == "How did you do this??!!"
  {
    if score < 200 then "What to say. Maybe next time."
    else if score < 400 then "Not bad but you can do more!"
    else if score < 700 then "Nice one."
    else if score < 1000 then "Congratulations!"
    else if score < 1300 then "Boooom! This is how it goes!"
    else if score < 1600 then "Unbeatable!"
    else if score < 2000 then "God mode!"
    else "How did you do this??!!"
  }

  // ---------------------------------------------------------------------------
  // The result panel over a run of events
  // ---------------------------------------------------------------------------

  /** Anything that runs a handler: an inbound frame, the socket opening or closing, a registration. */
  datatype Event = Frame(msg: Inbound) | Opened | Closed | Registered

  /** The events that assign `currentResult`: a `currentResult` frame, an `openUserRegistration` frame, `onopen`. */
  predicate SetsPanel(e: Event) {
    e.Opened? || (e.Frame? && (e.msg.CurrentResult? || e.msg.OpenUserRegistration?))
  }

  /** The record held after one event, `None` being the placeholder `{}`. */
  function PanelStep(held: Option<Attempt>, e: Event): (r: Option<Attempt>)
    ensures !SetsPanel(e) ==> r == held
    ensures SetsPanel(e) ==> (r.Some? <==> e.Frame? && e.msg.CurrentResult?)
  {
    match e
    case Frame(CurrentResult(a)) => Some(a)
    case Frame(OpenUserRegistration) => None
    case Opened => None
    case _ => held
  }

  /** The record held after a run of events, one handler after another, starting from `held`. */
  function PanelAfter(held: Option<Attempt>, events: seq<Event>): (r: Option<Attempt>)
    ensures (forall j :: 0 <= j < |events| ==> !SetsPanel(events[j])) ==> r == held
    decreases |events|
  {
    if events == [] then held
    else
      var p := events[..|events| - 1];
      assert forall j :: 0 <= j < |p| ==> p[j] == events[j];
      PanelStep(PanelAfter(held, p), events[|events| - 1])
  }

  /**
   * The panel of `showCurrentResult()` after a run of events is decided by the
   * last event that assigns `currentResult`: it shows that frame's record when
   * the last one is a `currentResult` frame, and is hidden otherwise.
   */
  lemma {:induction false} PanelFollowsLastSetter(held: Option<Attempt>, events: seq<Event>, k: nat)
    requires k < |events| && SetsPanel(events[k])
    requires forall j :: k < j < |events| ==> !SetsPanel(events[j])
    ensures PanelAfter(held, events) == if events[k].Frame? && events[k].msg.CurrentResult? then Some(events[k].msg.currentResult) else None
    decreases |events|
  {
    var p := events[..|events| - 1];
    if k < |p| {
      assert p[k] == events[k];
      forall j | k < j < |p| ensures !SetsPanel(p[j]) {
        assert p[j] == events[j];
      }
      PanelFollowsLastSetter(held, p, k);
    }
  }

  // ---------------------------------------------------------------------------
  // The controller's scope
  // ---------------------------------------------------------------------------

  class Controller {
    var waitingStartSignal: bool
    var gameInProgress: bool
    /** The last attempt announced; None is the empty placeholder `{}`. */
    var currentResult: Option<Attempt>
    var leaderBoard: seq<PlayerSummary>
    var user: User
    /** Undefined (falsy) until the socket first opens or closes. */
    var connected: bool
    /** Undefined (falsy) until the first registration. */
    var formDisabled: bool

    /** At most one phase flag is set, and the board is one the aggregator can produce. */
    ghost predicate Valid()
      reads this
    {
      !(waitingStartSignal && gameInProgress) && WellFormedBoard(leaderBoard)
    }

    /** The phase the flags encode; neither flag set means registration is open. */
    function Phase(): Phase
      reads this
    {
      if waitingStartSignal then AwaitingStart
      else if gameInProgress then InProgress
      else RegistrationOpen
    }

    /** The state the controller starts in, before any event. */
    constructor ()
      ensures Valid()
      ensures !waitingStartSignal && !gameInProgress
      ensures currentResult == None && leaderBoard == [] && user == map[]
      ensures !connected && !formDisabled
      ensures Phase() == RegistrationOpen
    {
      user := map[];
      currentResult := None;
      leaderBoard := [];
      waitingStartSignal := false;
      gameInProgress := false;
      connected := false;
      formDisabled := false;
    }

    /** `disableRegistration()`: the form is closed in every phase but the registration phase. */
    function DisableRegistration(): (r: bool)
      reads this
      ensures r <==> Phase() != RegistrationOpen
      ensures Valid() ==> (r <==> waitingStartSignal != gameInProgress)
    {
      waitingStartSignal || gameInProgress
    }

    /** `showCurrentResult()`: an attempt record is held; the placeholder `{}` (None) has no `nickName`. */
    function ShowCurrentResult(): bool
      reads this
    {
      currentResult.Some?
    }

    /** `emotion()`: the band message of the current score; with no result every comparison fails, giving the last message. */
    function Emotion(): (m: string)
      reads this
      ensures currentResult.Some? ==> m == Messages[Band(currentResult.value.score)]
      ensures currentResult.None? ==> m == Messages[|Messages| - 1]
    {
      match currentResult
      case None => "How did you do this??!!"
      case Some(a) => EmotionFor(a.score)
    }

    /** `onmessage`: one inbound frame. */
    method OnMessage(msg: Inbound)
      requires Valid()
      modifies this
      ensures Valid()
      ensures user == old(user) && connected == old(connected) && formDisabled == old(formDisabled)
      ensures currentResult == PanelStep(old(currentResult), Frame(msg))
      ensures msg.WaitingStartSignal? ==>
        && waitingStartSignal && !gameInProgress && Phase() == AwaitingStart && DisableRegistration()
        && currentResult == old(currentResult) && leaderBoard == old(leaderBoard)
      ensures msg.OpenUserRegistration? ==>
        && !waitingStartSignal && !gameInProgress && Phase() == RegistrationOpen && !DisableRegistration()
        && currentResult == None && !ShowCurrentResult() && leaderBoard == old(leaderBoard)
      ensures msg.GameInProgress? ==>
        && !waitingStartSignal && gameInProgress && Phase() == InProgress && DisableRegistration()
        && currentResult == old(currentResult) && leaderBoard == old(leaderBoard)
      ensures msg.CurrentResult? ==>
        && waitingStartSignal == old(waitingStartSignal) && gameInProgress == old(gameInProgress)
        && currentResult == Some(msg.currentResult) && ShowCurrentResult() && leaderBoard == old(leaderBoard)
      ensures msg.LeaderBoard? ==>
        && waitingStartSignal == old(waitingStartSignal) && gameInProgress == old(gameInProgress)
        && currentResult == old(currentResult)
        && leaderBoard == if NoPrototypeName(msg.leaderBoard) then Grouped(msg.leaderBoard) else old(leaderBoard)
      ensures msg.Unrecognised? ==>
        && waitingStartSignal == old(waitingStartSignal) && gameInProgress == old(gameInProgress)
        && currentResult == old(currentResult) && leaderBoard == old(leaderBoard)
    {
      match msg
      case WaitingStartSignal =>
        waitingStartSignal := true;
        gameInProgress := false;
      case OpenUserRegistration =>
        waitingStartSignal := false;
        gameInProgress := false;
        currentResult := None;
      case GameInProgress =>
        waitingStartSignal := false;
        gameInProgress := true;
      case CurrentResult(r) =>
        currentResult := Some(r);
      case LeaderBoard(results) =>
        // For an inherited name `groupByName` throws, `$apply` drops the frame
        // and the board on screen stays; otherwise it returns the corrected board.
        if GroupByNameAsWritten(results).Returned? {
          var board := GroupByName(results);
          GroupedIsWellFormed(results);
          leaderBoard := board;
        }
      case Unrecognised =>
    }

    /** `onopen`: connected, with the form and the last result cleared; phase and board are kept. */
    method OnOpen()
      requires Valid()
      modifies this
      ensures Valid()
      ensures currentResult == PanelStep(old(currentResult), Opened)
      ensures connected && user == map[] && currentResult == None && !ShowCurrentResult()
      ensures waitingStartSignal == old(waitingStartSignal) && gameInProgress == old(gameInProgress)
      ensures leaderBoard == old(leaderBoard) && formDisabled == old(formDisabled)
    {
      connected := true;
      user := map[];
      currentResult := None;
    }

    /** `onclose`: disconnected; nothing else changes. */
    method OnClose()
      requires Valid()
      modifies this
      ensures Valid()
      ensures currentResult == PanelStep(old(currentResult), Closed)
      ensures !connected
      ensures waitingStartSignal == old(waitingStartSignal) && gameInProgress == old(gameInProgress)
      ensures currentResult == old(currentResult) && leaderBoard == old(leaderBoard)
      ensures user == old(user) && formDisabled == old(formDisabled)
    {
      connected := false;
    }

    /**
     * `register()`: disables the form, clears the entered user and returns the
     * frame to send, which carries the user as entered before the call.
     */
    method Register() returns (sent: Outbound)
      requires Valid()
      modifies this
      ensures Valid()
      ensures currentResult == PanelStep(old(currentResult), Registered)
      ensures formDisabled && user == map[] && sent == UserMessage(old(user))
      ensures waitingStartSignal == old(waitingStartSignal) && gameInProgress == old(gameInProgress)
      ensures currentResult == old(currentResult) && leaderBoard == old(leaderBoard) && connected == old(connected)
    {
      formDisabled := true;
      var message := UserMessage(user);
      user := map[];
      sent := message;
    }
  }
}
