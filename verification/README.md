# Reaction-test browser client: session controller and leaderboard

This project models the browser client of the reaction-test game,
`actor/src/main/resources/www/js/app.js`. The client is an AngularJS
controller. It listens on a WebSocket for the game's phase announcements,
the latest attempt result and leaderboard snapshots. It exposes the state to
the views through `$scope`, and sends one outbound message: the
player-registration form.

Two parts are modelled:

- **`groupByName`** (`leaderboard.dfy`, module `Leaderboard`). It folds raw
  attempt records `{nickName, score, email}` into one row per player
  `{nickName, email, bestScore, results}`.
  - The loops are modelled as the method `GroupByName`. The dictionary
    `grouped` is a `map`, and its key insertion order is a `seq`.
  - The method is proved equal to a reference definition, `Grouped`. That
    definition is built from independent pieces:
    - `FirstSeen`: the distinct names in first-occurrence order.
    - `AttemptsOf`: the records of one name, in input order.
    - `MaxScore`: the largest score.
  - Lemmas about `Grouped` state that:
    - there is one row per distinct name, in first-seen order;
    - each row holds exactly that name's records;
    - `bestScore` is their maximum;
    - `email` comes from the player's first record;
    - the rows partition the input;
    - re-aggregating an aggregated board changes nothing.
- **The controller's scope** (`controller.dfy`, module `SessionController`).
  - The class `Controller` holds the `$scope` fields that the source
    updates: `waitingStartSignal`, `gameInProgress`, `currentResult`,
    `leaderBoard`, `user`, `connected` and `formDisabled`.
  - The methods are the socket handlers (`OnMessage`, `OnOpen`, `OnClose`)
    and `Register`.
  - The queries `DisableRegistration`, `ShowCurrentResult` and `Emotion` are
    functions.
  - The class invariant `Valid()` says two things. The two phase flags are
    never both set. The board is well formed: one row per name, and each
    row agrees with its records.

Inbound frames are modelled as the closed datatype `Inbound`. Any `type`
the switch does not name becomes `Unrecognised`. A user is a map from form
field to text; the empty object `{}` is the empty map. A `currentResult`
of `{}` is `None`.

Notes on how the model reads the code:

- **Initial state.** The controller starts with both phase flags false
  (`app.js:80-81`). In the code this state means "registration open":
  `disableRegistration()` is false until the server announces a phase. The
  model follows the code, so the constructor ensures
  `Phase() == RegistrationOpen`. It does not start in an "awaiting start"
  phase.
- **Undefined fields.** `connected` and `formDisabled` are never
  initialised. They are `undefined` (falsy) until first assigned, and the
  model starts them at `false`.
- **`formDisabled` is never reset.** No code path sets it back to false.
- **`onopen` keeps some state.** It keeps the leaderboard and both phase
  flags (`app.js:36-42`). It clears only `user` and `currentResult`, and
  sets `connected`.
- **The email comes from the first record.** A row's `email` is taken from
  the player's first record and is never overwritten (`app.js:59-60` does
  not touch it).
- **`emotion()` with no result.** With no current result, `emotion()` reads
  `undefined`. Every `<` comparison is then false, so the last message is
  returned. `Emotion` models this.

## Model

| member | source | states |
|---|---|---|
| `Leaderboard.GroupByName` | actor/src/main/resources/www/js/app.js:52-75 | The two loops return exactly the reference board `Grouped(results)`: one row per distinct name, in first-seen order, each holding that name's records, their maximum score and the first record's email |
| `Leaderboard.ReadOneMore` | actor/src/main/resources/www/js/app.js:54-69 | One iteration of the first loop takes `keys` and `grouped` from their values for the first `i` records to their values for the first `i + 1` records. A known name gets the running maximum and one more result; a new name gets a fresh row and goes to the end of the key order |
| `Leaderboard.EmitOrder` | actor/src/main/resources/www/js/app.js:70-74 | After the first loop, the rows taken in key-insertion order are exactly the reference board |
| `Leaderboard.IndexIsGroupOf` | actor/src/main/resources/www/js/app.js:58-68 | The dictionary built by the loop body has an entry exactly for the names read so far. Each entry equals that player's reference summary |
| `Leaderboard.Max` | actor/src/main/resources/www/js/app.js:59 | `Math.max` gives a result at least as large as both arguments and equal to one of them |
| `Leaderboard.FirstSeen` | actor/src/main/resources/www/js/app.js:58-73 | The listed names are exactly the names occurring in the input, each listed once |
| `Leaderboard.FirstSeenOrder` | actor/src/main/resources/www/js/app.js:62-73 | Key order is first-occurrence order: wherever a later-listed name occurs, every earlier-listed name has already occurred |
| `Leaderboard.AttemptsOf` | actor/src/main/resources/www/js/app.js:60-66 | A player's records all carry that name, and they are non-empty exactly when the name occurs in the input |
| `Leaderboard.AttemptsOfMembers` | actor/src/main/resources/www/js/app.js:60-66 | A record is among a player's records if and only if it is an input record with that name |
| `Leaderboard.MaxScore` | actor/src/main/resources/www/js/app.js:59-65 | The best score bounds every score of the records and is attained by one of them |
| `Leaderboard.GroupedByFirstOccurrence` | actor/src/main/resources/www/js/app.js:52-75 | A name occurs in the input if and only if some row carries it. No two rows share a name, and rows follow first-occurrence order |
| `Leaderboard.FirstAttemptIsFirstOccurrence` | actor/src/main/resources/www/js/app.js:62-67 | A player's first record is the first input record with that name |
| `Leaderboard.GroupContents` | actor/src/main/resources/www/js/app.js:58-67 | Each row holds exactly the input records of its name, in input order. Its `bestScore` is the maximum of their scores. Its `email` is that of the player's first input record |
| `Leaderboard.ResultsPartitionInput` | actor/src/main/resources/www/js/app.js:58-67 | The rows' results together are a permutation of the input, so the summed result counts equal the input length |
| `Leaderboard.GroupedIsWellFormed` | actor/src/main/resources/www/js/app.js:52-75 | Every board the aggregator returns has distinct names, non-empty results of the row's name, the maximum as best score and the first record's email |
| `Leaderboard.FlattenNames` | actor/src/main/resources/www/js/app.js:52-75 | Concatenating a well-formed board's results and listing names by first occurrence gives back the board's names in row order |
| `Leaderboard.FlattenAttempts` | actor/src/main/resources/www/js/app.js:52-75 | In a well-formed board's concatenated results, each row's player has exactly that row's records |
| `Leaderboard.WellFormedIsFixpoint` | actor/src/main/resources/www/js/app.js:52-75 | Aggregating the concatenated results of any well-formed board gives back that board |
| `Leaderboard.GroupingIsIdempotent` | actor/src/main/resources/www/js/app.js:52-75 | Re-aggregating the records of an aggregated board changes nothing |
| `Leaderboard.FillAsWrittenAgrees` | actor/src/main/resources/www/js/app.js:53-69 | With the plain-object lookup, the first loop fails exactly when some name is an inherited property name. Otherwise it builds the same dictionary and key order as the corrected loop |
| `Leaderboard.GroupByNameAsWritten` | actor/src/main/resources/www/js/app.js:52-75 | The source's `groupByName` throws a TypeError exactly when some record is named after an `Object.prototype` member. Otherwise it returns the reference board |
| `Leaderboard.ConstructorNameThrows` | actor/src/main/resources/www/js/app.js:58-60 | A one-record snapshot from a player named `constructor` makes the source throw |
| `Leaderboard.ConstructorNameGrouped` | actor/src/main/resources/www/js/app.js:52-75 | For the same snapshot, the corrected aggregator lists that player with its one result, its email and its score as best score |
| `SessionController.Band` | actor/src/main/resources/www/js/app.js:104-113 | The score band is the one whose bounds from the threshold table 200/400/700/1000/1300/1600/2000 enclose the score |
| `SessionController.BandMonotone` | actor/src/main/resources/www/js/app.js:104-113 | A higher score never falls into a lower band |
| `SessionController.EmotionFor` | actor/src/main/resources/www/js/app.js:105-112 | The if-cascade returns the message of the score's band. Any score of 2000 or more gives the last message |
| `SessionController.Controller.Emotion` | actor/src/main/resources/www/js/app.js:104-113 | `emotion()` gives the band message of the current result's score. With no result it gives the last message |
| `SessionController.Controller.DisableRegistration` | actor/src/main/resources/www/js/app.js:96-98 | Registration is disabled exactly when the phase is not the registration phase. Under the invariant that is exactly when one phase flag is set |
| `SessionController.PanelStep` | actor/src/main/resources/www/js/app.js:17-42 | Only a `currentResult` frame, an `openUserRegistration` frame and `onopen` assign `currentResult`. Of these, only a `currentResult` frame leaves a record held; the other two leave the `{}` placeholder |
| `SessionController.PanelAfter` | actor/src/main/resources/www/js/app.js:8-47 | Over a run of handler calls with none of those three events, the held record does not change |
| `SessionController.PanelFollowsLastSetter` | actor/src/main/resources/www/js/app.js:100-102 | `ShowCurrentResult()` is `currentResult.Some?`; `None` stands for `{}`, whose `nickName` is undefined. After a run of events, `showCurrentResult()` is decided by the last event that assigns `currentResult`: the panel shows that frame's record if it was a `currentResult` frame and is hidden otherwise. Each handler's contract ties its effect on `currentResult` to `PanelStep` |
| `SessionController.Controller.constructor` | actor/src/main/resources/www/js/app.js:77-81 | Starts with an empty user, no result, an empty board, both phase flags false, not connected and the form enabled. The invariant holds |
| `SessionController.Controller.OnMessage` | actor/src/main/resources/www/js/app.js:8-34 | Keeps the invariant and never touches `user`, `connected` or `formDisabled`. `waitingStartSignal` and `gameInProgress` each set their own flag and clear the other. `openUserRegistration` clears both flags and the current result, which enables registration. `currentResult` replaces only the result. `leaderBoard` replaces the board wholesale with the aggregate of the payload when no record is named after an `Object.prototype` member; otherwise `groupByName` throws inside `$apply` and the board on screen stays. An unrecognised type changes nothing. The effect on `currentResult` is `PanelStep` of the frame |
| `SessionController.Controller.OnOpen` | actor/src/main/resources/www/js/app.js:36-42 | Sets `connected`, empties `user` and `currentResult`, and leaves the board, the phase flags and `formDisabled` unchanged |
| `SessionController.Controller.OnClose` | actor/src/main/resources/www/js/app.js:43-47 | Clears `connected` and changes nothing else |
| `SessionController.Controller.Register` | actor/src/main/resources/www/js/app.js:115-124 | Disables the form and empties `user`. It returns the frame `{type: 'user', user}` carrying the user as it was before the call. Nothing else changes |

## Findings

| source | as written | input that shows it | evidently intended | confidence | as-written member | corrected member |
|---|---|---|---|---|---|---|
| actor/src/main/resources/www/js/app.js:53-60 | `grouped` is a plain object literal, so `grouped[nickName]` also finds members inherited from `Object.prototype`. For such a name the existing-player branch runs, `grouped[nickName].results` is undefined, and `push` throws a TypeError, so the leaderboard snapshot is dropped. For `__proto__`, the merge branch first writes `bestScore = NaN` onto `Object.prototype`; from then on every later `for...in` over `grouped` also lists `bestScore`, so every later board ends in an extra `NaN` row (not modelled, see Left out) | a `leaderBoard` frame whose payload is `[{nickName: "constructor", score: 5, email: "a@b"}]` (`Leaderboard.ConstructorNameThrows`, and `Leaderboard.ConstructorNameGrouped` for the corrected result); likewise `toString`, `valueOf`, `hasOwnProperty`, `__proto__` and the other inherited names | look up own entries only (a `Map`, `Object.create(null)` or `hasOwnProperty`), so that every name gets its own row | high; not executed | `Leaderboard.GroupByNameAsWritten` | `Leaderboard.GroupByName` |

The controller (`SessionController.Controller.OnMessage`) calls the corrected
`Leaderboard.GroupByName` when the source's `groupByName` returns, and keeps
the old board when it throws, as the source does.

## Left out

- Reconnection and backoff. These belong to the `ReconnectingWebSocket`
  library, which is not part of this model; only its `maxReconnectInterval`
  of 3000 ms is configured (`app.js:6-7`).
- `webSocket.send`. This is the library's send path and may throw when the
  socket is not open. `Register` returns the frame to be sent instead of
  sending it. The state changes happen before the send, so the model keeps
  them either way.
- JSON decoding and encoding (`JSON.parse`, `angular.toJson`). Handlers take
  already-typed `Inbound` events. A malformed frame, which throws inside
  `$scope.$apply`, is not modelled.
- `$scope.$apply`, `$log`, `setWebSocketUrl` and the URL construction
  (`app.js:83-94`).
- `onSelectName`, a one-line form binding. Form edits are direct
  assignments to the public field `user`.
- Route configuration (`app.js:127-138`), which is presentation only.
- `Leaderboard.GroupByName`: row order matches JavaScript's only when no
  name is integer-like (`"0"`, `"17"`, ...). For such keys, `for...in`
  enumerates in ascending numeric order before the other keys. The model
  assumes names are not integer-like and emits every row in first-seen
  order.
- `Leaderboard.GroupByNameAsWritten`: each call assumes a clean
  `Object.prototype`. After a record named `__proto__`, the source leaves an
  enumerable `Object.prototype.bestScore` of `NaN`, so every later call also
  emits a trailing `NaN` row (`[]` gives `[NaN]`, `[A]` gives `[rowA, NaN]`);
  this lasting effect is not modelled. Like `Leaderboard.GroupByName`, it
  also assumes that no name is integer-like, since `for...in` lists such keys
  first in ascending numeric order.
- `SessionController.Controller.OnMessage`: because each call of the
  aggregator starts from a clean `Object.prototype`, the trailing `NaN` row
  that boards carry after a `__proto__` record has been seen is not modelled.
- `Leaderboard.GroupByName`: records are assumed to carry a string
  `nickName` and an integer `score`. A missing `nickName`, which would
  group under `"undefined"`, and non-numeric scores are not modelled.
- The earlier client variants `akka/src/main/resources/www/js/app.js` and
  `akka/src/main/resources/www/js/controller.js` are not part of this
  model. They only toggle one flag or replace one list.
