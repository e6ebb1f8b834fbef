# Bukber Championship: room sessions and voting, in Dafny

Bukber Championship is a small real-time web app in which a group chooses the
date and the venue of a shared iftar dinner (*bukber*) over four timed
voting rounds. A host creates a room and friends join it with a four-digit
room code. Round 1 picks up to three of six candidate dates. Round 2 votes
on the top two of those dates. Round 3 picks up to three venues. Round 4
votes on the top two of those venues. A results screen shows the winners.
The Node.js server keeps every room in memory and drives the rounds; the
browser client holds each round's selection and renders the results.

This project models that core and proves properties of it:

- `ordered_map.dfy` (`OrderedMap`): JavaScript plain objects with
  non-integer-like keys, such as socket ids, ISO dates and `r…` venue ids.
  They are modelled as insertion-ordered association lists. An assignment
  to an existing key keeps its position; `delete` keeps the others' order.
- `ranking.dfy` (`Ranking`): the vote-tally rule shared by server and
  client. Each candidate is counted (`counts[x] = (counts[x] || 0) + 1`).
  The keys are sorted by count, descending, with a stable sort, and the
  first entries are kept. `IsRanking` is an independent reference
  definition of the sorted list; the lemmas prove that the computed list
  meets it and that it is the only list that does. The engine's stable
  sort is modelled by an insertion sort; `RankingUnique` shows that any
  stable sort gives the same result.
- `room.dfy` (`RoomState`): the room record, the `state_update` snapshot,
  the room invariant (at most one host, a non-empty roster keyed by user
  id, at most one ballot per voter in each ledger, at most two
  carried-over dates and venues), the round transitions
  of `handleAdminAction`, and the top-2 tallies with their fallbacks.
- `server.dfy` (`Server`): the `rooms` registry as a class with one method
  per socket event. Each method returns the messages it emits, in order,
  so "exactly one broadcast" is part of its contract.
- `client.dfy` (`Client`): the selection state and submit button of the
  multi-select rounds (1 and 3) and the single-select rounds (2 and 4).
  Also the counting, winner choice, round-4 option lookup and chart order
  of the results screen.

Behaviours of the code that the model keeps as they are:

- `handleAdminAction` does not check which round the room is in. Every
  host action applies from any round, and an unrecognised action still
  broadcasts.
- A room-id collision in `create_room` replaces the existing room.
- The server tally counts every element of every array ballot. A date
  listed twice in one ballot counts twice, and non-array ballots count for
  nothing.
- `submit_vote` naming the room's current round when that round has no
  ledger (`lobby`, `results`) throws before changing anything. This is the
  `fault` result of `Server.Registry.SubmitVote`. Nothing catches the throw,
  so in the code it ends the server process; the model stops at the
  unchanged registry.
- Nothing adds the `voted-disabled` class that the option boxes test, so
  that guard never fires. After a submit, and until a `state_update`
  holding the caller's ballot arrives, a tap still changes the selection
  and, if the selection is non-empty, re-enables the submit button. Once
  that update arrives, `updateVoteStatus` hides the button and replaces the
  option boxes with a waiting notice, so no further tap is possible. A
  `null` ballot is falsy, so for it the button is not hidden.
- The client turns a ballot into a counting key the way JavaScript turns a
  value into a property name. A string stays as it is, `null` becomes
  `"null"`, and an array is joined with commas.
- The results date is `TBD` when there are no round-2 ballots, and also
  when the leading key is the empty string.

## Model

| member | source | states |
|---|---|---|
| OrderedMap.Put | server.js:175 | after `m[k] = v`, `k` maps to `v`. An existing key keeps its position; a new key is appended. Every other key keeps its presence and value, and a dictionary stays a dictionary |
| OrderedMap.PutTwice | server.js:175 | writing the same value under the same key twice gives the same dictionary as writing it once |
| OrderedMap.Remove | server.js:283 | after `delete m[k]`, `k` is absent and every other key keeps its presence. No entry is invented, a dictionary shrinks by exactly one entry, and a missing key changes nothing |
| OrderedMap.RemoveOrder | server.js:283 | `delete` does not reorder: in a dictionary, the entries left after a removal keep their relative order, so the roster of the next broadcast lists the remaining users as before |
| OrderedMap.RemoveGet | server.js:283 | removing one key leaves every other key's value as it was |
| Ranking.CountOne | server.js:230 | one step `counts[x] = (counts[x] \|\| 0) + 1` turns the table of the candidates seen so far into the table of those candidates followed by `x` |
| Ranking.CountedHas | server.js:229-231 | the count table has a key exactly for each candidate that occurs |
| Ranking.CountedGet | server.js:229-231 | each candidate's count is its number of occurrences |
| Ranking.CountedOrder | server.js:229-232 | the table's keys are in the order in which the candidates were first met |
| Ranking.SortByCount | server.js:232 | the sort returns a permutation of its input, sorted by non-increasing count |
| Ranking.SortStable | server.js:232 | the sort is stable: entries with equal counts keep their input order |
| Ranking.RankedIsRanking | server.js:228-232 | counting then sorting yields the reference ranking: every candidate that occurs appears exactly once, by non-increasing count, with ties in first-seen order |
| Ranking.RankingUnique | server.js:232 | any list meeting the reference ranking equals the computed one, so the order does not depend on the sort algorithm |
| Ranking.TopSpec | server.js:233 | `slice(0, n)` keeps `min(n, #distinct candidates)` distinct candidates, all of which occur. They have non-increasing counts, ties in first-seen order, and every candidate left out loses to each one kept |
| Ranking.RankedLeader | public/app.js:475 | for a non-empty ballot list, `sorted[0]` has the highest count and is the first met among those with that count |
| Ranking.LeaderUnique | public/app.js:475 | there is only one such leader |
| RoomState.CreateDefaultRoomState | server.js:25-36 | a new room is in the lobby with the given group name. It has no users, four empty ledgers, no deadline, no carried-over dates or venues, and the five default venues with distinct ids |
| RoomState.SnapshotRoundTrip | server.js:38-52 | the `state_update` snapshot loses nothing of the modelled room: the room can be rebuilt from it exactly, since the roster is keyed by user id (venue coordinates are not modelled) |
| RoomState.SingleUserWellFormed | server.js:148 | a fresh room whose only user is its creator satisfies the room invariant |
| RoomState.HostCountPutGuest | server.js:162 | adding or overwriting a user with `isHost: false` never increases the number of hosts |
| RoomState.HostCountRemove | server.js:283 | removing a user never increases the number of hosts |
| RoomState.RemoveKeyedById | server.js:283 | after a removal, every user is still listed under its own id |
| RoomState.FlattenHas | server.js:229-231 | a candidate is counted exactly when some array ballot lists it |
| RoomState.Votes.With | server.js:175 | writing one round's ledger leaves the other three ledgers unchanged |
| RoomState.RecordVote | server.js:175 | an accepted vote puts `votes[round][caller] = selection` and changes no other ledger and no other field. It keeps the room invariant |
| RoomState.RecordVoteTwice | server.js:175 | resubmitting the same selection is idempotent |
| RoomState.Tally | server.js:228-233 | the tally keeps at most two candidates |
| RoomState.TallyEmpty | server.js:228-234 | the tally is empty exactly when no array ballot lists anything |
| RoomState.TallyChosen | server.js:228-233 | every candidate the tally keeps is listed in some array ballot of that ledger |
| RoomState.TopDatesOf | server.js:228-238 | round 2 always offers one or two dates |
| RoomState.TopDatesSpec | server.js:228-238 | with no round-1 dates, round 2 offers only `tomorrow`. Otherwise it offers the top two round-1 dates, each listed in some round-1 ballot |
| RoomState.TopRestaurantsOf | server.js:245-254 | round 4 offers at most two venue ids |
| RoomState.TopRestaurantsSpec | server.js:245-254 | with no round-3 venues, round 4 offers the ids of the first (at most two) venues. Otherwise it offers the top one or two round-3 venues, each listed in some round-3 ballot |
| RoomState.Advance | server.js:208-266 | `start_round1` and unrecognised actions change nothing. Rounds 2-4 set the round and `timerEnd = now + 600000`, with the round-2 and round-4 tallies. `show_results` clears the deadline. `reset` restores the lobby with empty ledgers, tops and deadline. Users, venues and group name are never touched, and the room invariant is kept |
| RoomState.NextAction | server.js:180-193 | a completed voting round triggers a forward transition, never `start_round1`, `reset` or an unrecognised action |
| RoomState.AutoAdvanceOrder | server.js:180-193 | completing a voting round moves the room to its successor (round1→round2→round3→round4→results), which differs from the current round |
| RoomState.LedgerSizeCountsVoters | server.js:178-179 | in a well-formed room a ledger's entry count is its number of distinct voters, so the completion test compares voters with users |
| RoomState.AfterVote | server.js:175-194 | after an accepted vote, a ledger with at least as many entries as users advances to the successor round. Otherwise the room is the one with the vote recorded, still in its round. The room invariant is kept |
| Server.NatToString | server.js:138 | a count is written as one or more decimal digits without a leading zero |
| Server.NatToStringValue | server.js:138 | the digits of `${fetched.length}` denote the count: their decimal value is `n`, and only `0` starts with a zero |
| Server.SeededRestaurants | server.js:132-146 | a new room's venue list is never empty. It is the looked-up list when that is non-empty, otherwise the client's list when the lookup returned no list (no location was sent, or the lookup failed) and that list is non-empty, otherwise the defaults |
| Server.CountItems | server.js:230 | the inner loop adds one count per item of an array ballot |
| Server.CountBallots | server.js:228-231 | the counting loop yields the count table of all array-ballot items, in ballot order |
| Server.TallyRound | server.js:228-233 | the computed top two equals `Tally` of the ledger |
| Server.SeedVenues | server.js:132-146 | the handler's venue branch seeds the room with `SeededRestaurants` and sends the creator exactly the notices of `LookupNotices` |
| Server.NewRoom | server.js:128-148 | the room `create_room` builds is in the lobby with empty ledgers, no deadline and no carried-over options. Its group name falls back to the default, its venues are `SeededRestaurants`, its only user is the creator as host, and it satisfies the room invariant |
| Server.Transition | server.js:208-266 | the handler's assignments compute exactly `Advance` of the room, so the tallies it runs agree with `Tally` |
| Server.Registry.constructor | server.js:14 | the registry starts empty |
| Server.Registry.CreateRoom | server.js:126-153 | the room under the given id is replaced (or created). It is in the lobby with defaults, the group name falls back to "Bukber Championship", the caller is the only user and the host, and the venues are `SeededRestaurants`. The lookup notice (if any) comes first, then `login_success` and one broadcast |
| Server.Registry.JoinRoom | server.js:155-166 | an unknown room gets only the private "Room not found" error and changes nothing. Otherwise the caller is put as a non-host user (the host count does not grow), then `login_success` and one broadcast |
| Server.Registry.HandleAdminAction | server.js:208-268 | an unknown room is left alone without a message. Otherwise the room becomes `Advance` of itself and gets one `state_update`, or only `show_countdown` for `start_round1` |
| Server.Registry.CastVote | server.js:175-194 | an accepted vote leaves the room as `AfterVote` of itself, with exactly one broadcast |
| Server.Registry.SubmitVote | server.js:168-195 | a missing room, a non-member or another round changes nothing and sends nothing. A matching round without a ledger faults with no change. Otherwise the result is `CastVote`'s |
| Server.Registry.AdminUpdateRestaurants | server.js:197-206 | only the host, and only in the lobby, replaces the venue list wholesale, with one broadcast. Anything else changes nothing and sends nothing |
| Server.Registry.AdminAction | server.js:270-275 | a non-host or non-member changes nothing and sends nothing. The host gets `HandleAdminAction` |
| Server.Registry.StartRound1Now | server.js:218-225 | the deferred half of `start_round1` re-fetches the room by id. If it is still registered it enters round 1 with `timerEnd = now + 600000` and one broadcast; otherwise nothing happens |
| Server.Registry.Disconnect | server.js:277-295 | rooms are scanned in ascending id order and the caller leaves the first room listing it. That room is deleted iff nobody is left, otherwise it gets exactly one broadcast. Its ledgers keep the caller's votes, and no other room changes |
| Client.Without | public/app.js:326 | the filter (round 3's copy is public/app.js:408) removes exactly the deselected option, a list holding it gets shorter, and the filter keeps a duplicate-free list duplicate-free |
| Client.WithoutSnoc | public/app.js:326 | the filter keeps the order of the options it keeps: filtering a list with one more option appends that option unless it is the one deselected |
| Client.Toggled | public/app.js:325-331 | a tap deselects a selected option, filtering it out of the list so the other picks keep their order. It appends an unselected one while fewer than three are selected, and otherwise leaves the list exactly as it was. The selection stays duplicate-free and at most three long |
| Client.ToggleTwice | public/app.js:325-331 | two taps on one box restore the set of selected options, and restore the list exactly when the first tap selected the option |
| Client.MultiPick.constructor | public/app.js:307-308 | rendering round 1 starts with nothing selected and submit disabled |
| Client.MultiPick.Toggle | public/app.js:323-333 | a tap applies `Toggled`, and submit is disabled exactly when the selection is empty |
| Client.MultiPick.Submit | public/app.js:337-341 | submit sends the selection as an array of one to three distinct shown options, then disables the button and shows "Voted!" |
| Client.SinglePick.constructor | public/app.js:355-356 | rendering round 2 starts with nothing chosen and submit disabled |
| Client.SinglePick.Choose | public/app.js:364-370 | a tap makes the option the one choice and enables submit |
| Client.SinglePick.Submit | public/app.js:374-378 | submit sends the chosen shown option, then disables the button and shows "Voted!" |
| Client.Join | public/app.js:474 | an array ballot's key is its elements joined with commas; an empty array gives the empty key and a one-element array gives that element |
| Client.CountVotes | public/app.js:474 | the `forEach` loop yields the count table of the ballot keys |
| Client.DateWinner | public/app.js:473-475 | the results date is `TBD` with no round-2 ballots. Otherwise it is the leading ballot, or `TBD` when that is the empty key |
| Client.FindById | public/app.js:480 | `find` gives the first venue with the id, or nothing exactly when no venue has it |
| Client.VenueWinner | public/app.js:477-480 | the results venue is none with no round-4 ballots. Otherwise it is the first venue whose id is the leading ballot, or none when no venue has that id |
| Client.TopOptions | public/app.js:441 | round 4 shows known venues whose ids were carried over, at most one per id. Every known carried-over id is shown, so none are lost when all ids are known |
| Client.TopOptionsSnoc | public/app.js:441 | appending an id appends its venue if it is known, so the options keep the order of the ids |
| Client.ChartRowsCounts | public/app.js:499 | with the table counted from the round-4 ballots, each bar before sorting pairs a round-4 option with the number of round-4 ballots naming its id (0 when none does), one bar per option in option order |
| Client.ChartSpec | public/app.js:499 | the chart is a permutation of those bars, by non-increasing count, each count the number of round-4 ballots naming the venue. Ties keep the order of the options when the venues are distinct |
| Client.ChartDenominator | public/app.js:498 | the percentage denominator is at least 1 and equals the number of round-4 ballots when there are any |
| Client.WinningDate | public/app.js:473-475 | the counting, sorting and head selection compute `DateWinner` |
| Client.WinningVenue | public/app.js:477-480 | the counting, sorting and lookup compute `VenueWinner`, and the counts are those of the round-4 ballots |
| Client.RenderResults | public/app.js:469-499 | the results screen shows the group name (default "Bukber Championship"), `DateWinner`, the name of `VenueWinner` (or `TBD`), the sorted chart and its denominator |

## Left out

- `fetchNearbyRestos` (the Nominatim and Overpass lookups, JSON parsing and the random shuffle) is not modelled. Its outcome is the `Lookup` input of `CreateRoom`: no location, a failed lookup, or the list found.
- The socket.io and Express plumbing (`socket.join`, `io.to(...).emit`, static serving, `server.listen`) is not modelled. Emitted messages are returned as values: a broadcast is a `StateUpdate` or `ShowCountdown` for the room; a private message is a `LoginSuccess` or `Error` naming its socket.
- Clocks and timers are inputs. `Date.now()` is `now`, the server's "tomorrow" date string is `tomorrow`, and the four-second `setTimeout` of `start_round1` is the separate `StartRound1Now` call. The client's countdown display and its six round-1 dates are not modelled; the dates are the `options` of a `MultiPick`.
- The random room id is an input in 1000..9999 (`CreateRoom` requires that range).
- Room ids are integers. The code indexes `rooms` by the four-digit string; such keys are integer-like, so `for…in` visits them in ascending numeric order. `Disconnect` steps through 1000..9999 in that order. An event whose room id is not a four-digit number is not modelled. Most such ids find no room and take the "Room not found" or silent path. But an id naming an `Object.prototype` member (`constructor`, `toString`, `__proto__`) finds an inherited value, and `join_room`, `submit_vote`, `admin_update_restaurants` and `admin_action` then throw a TypeError (server.js:162, 171, 200, 273). The model does not capture that.
- Inherited properties as counting keys are not modelled. A ballot item or key such as `"toString"` makes `counts[d] || 0` read an inherited function, so the count becomes a string and the tally differs (server.js:230, public/app.js:474). The model counts every key from zero.
- All other keys (socket ids, ISO dates, venue ids, joined ballots) are assumed not to be integer-like, so object key order is insertion order. A key such as `"7"` would be listed first by JavaScript; the model does not capture that.
- The `await` inside `create_room` lets other events run between the room's insertion and the creator's registration (server.js:130, 135, 148). Events are modelled as atomic, so that interleaving is not captured, and the room invariant holds in the model but not always in the code. For the whole lookup the registered room has no users. Two `create_room` events that draw the same id can both add their host to the surviving room, which then has two hosts. A creator who disconnects during the lookup is added afterwards and never removed, so the room is never deleted.
- `CreateRoom` treats a `restaurants` payload that is not an array as missing. `AdminUpdateRestaurants` takes a list; a payload of another JSON type, which the code would store as it is, is not modelled.
- Venue coordinates are not modelled. Looked-up venues carry `lat` and `lon` (server.js:110-111), which the snapshot passes on; `Restaurant` keeps only id, name, price range and highlights.
- Server.Registry.SubmitVote: the `fault` outcome is the state at the moment of the TypeError thrown at server.js:175. Nothing in the server catches it, so in the code it is an uncaught exception that by Node's default ends the process and every in-memory room. The model does not model the process ending; it returns the unchanged registry. The prototype-id throws listed above end the process the same way.
- Ballot payloads are strings, arrays of strings or `null`. Other JSON values (numbers, objects, nested arrays) are not modelled.
- DOM rendering, `escapeHTML`, `formatDate`, clipboard copy, image export and the floating-point bar widths on the results screen are not modelled. The chart's denominator is.
- Rooms are immutable values that the registry reassigns. The code mutates the room object in place; nothing else holds a reference to it, so no aliasing is lost.
- Client.MultiPick.Toggle: the `voted-disabled` guard is omitted, because no code path adds that class.
- The client's copy of `fetchNearbyRestos` and the room-creation form are not modelled. The lobby's host controls are modelled only through the `admin_*` events they send.
- `test-api.js` is a network smoke script with no logic of its own, so it is not modelled.
