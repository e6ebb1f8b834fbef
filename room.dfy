/**
 * One room session as `server.js` stores it in `rooms[roomId]`: the round it
 * is in, its roster, one vote ledger per voting round, the countdown
 * deadline, the carried-over top dates and venues, and its venue list; plus
 * the snapshot broadcast as `state_update` and the pure part of
 * `handleAdminAction`.
 */
module RoomState {
  import opened OrderedMap
  import opened Ranking

  datatype Option<T> = None | Some(value: T)

  datatype Round = Lobby | Round1 | Round2 | Round3 | Round4 | Results
  {
    /** The four rounds that have a vote ledger. */
    predicate Voting()
    {
      this in {Round1, Round2, Round3, Round4}
    }
  }

  /**
   * The `selection` payload of `submit_vote`: an array of dates or venue ids
   * (rounds 1 and 3), a single date or venue id (rounds 2 and 4), or `null`.
   */
  datatype Selection = Picks(items: seq<string>) | Pick(item: string) | NoPick

  datatype Restaurant = Restaurant(id: string, name: string, priceRange: string, menuHighlights: string)

  datatype User = User(id: string, name: string, isHost: bool)

  /** A vote ledger: socket id to that socket's selection, in insertion order. */
  type Ledger = seq<(string, Selection)>

  /** The roster: socket id to user record, in insertion order. */
  type Roster = seq<(string, User)>

  datatype Votes = Votes(round1: Ledger, round2: Ledger, round3: Ledger, round4: Ledger)
  {
    /** `votes[r]` */
    function Of(r: Round): Ledger
      requires r.Voting()
    {
      match r
      case Round1 => round1
      case Round2 => round2
      case Round3 => round3
      case Round4 => round4
    }

    /** `votes[r] = l`, leaving the other three ledgers alone. */
    function With(r: Round, l: Ledger): (v: Votes)
      requires r.Voting()
      ensures v.Of(r) == l
      ensures forall q: Round :: q.Voting() && q != r ==> v.Of(q) == Of(q)
    {
      match r
      case Round1 => this.(round1 := l)
      case Round2 => this.(round2 := l)
      case Round3 => this.(round3 := l)
      case Round4 => this.(round4 := l)
    }
  }

  /** `{ round1: {}, round2: {}, round3: {}, round4: {} }` */
  const NoVotes: Votes := Votes([], [], [], [])

  datatype Room = Room(
    round: Round,
    groupName: string,
    users: Roster,
    votes: Votes,
    timerEnd: Option<int>,
    topDates: seq<string>,
    topRestaurants: seq<string>,
    restaurants: seq<Restaurant>)

  /** The public snapshot sent as `state_update`. */
  datatype Snapshot = Snapshot(
    roomId: int,
    round: Round,
    groupName: string,
    users: seq<User>,
    timerEnd: Option<int>,
    topDates: seq<string>,
    topRestaurants: seq<string>,
    restaurants: seq<Restaurant>,
    votes: Votes)

  /** A host action name as `admin_action` carries it. */
  datatype Action =
    | StartRound1 | StartRound2 | StartRound3 | StartRound4 | ShowResults | Reset
    | Unrecognised(name: string)

  /** Ten minutes, in milliseconds. */
  const RoundDuration: int := 10 * 60 * 1000

  /** The group name used when `create_room` gives none (or an empty one). */
  const DefaultGroupName: string := "Bukber Championship"

  const DefaultRestaurants: seq<Restaurant> := [
    Restaurant("r1", "Kampoeng Pasir", "Rp 50rb - 100rb", "Seafood, Ikan Bakar"),
    Restaurant("r2", "Ocean's Resto", "Rp 100rb - 200rb", "Kepiting Soka, Cumi"),
    Restaurant("r3", "Dandito", "Rp 75rb - 150rb", "Kepiting Saus, Udang"),
    Restaurant("r4", "Torani", "Rp 30rb - 80rb", "Bandeng, Aneka Sambal"),
    Restaurant("r5", "Blue Sky Bakpao", "Rp 20rb - 50rb", "Mantau, Sapi Lada Hitam")
  ]

  function RestaurantIds(rs: seq<Restaurant>): (ids: seq<string>)
    ensures |ids| == |rs|
    ensures forall i :: 0 <= i < |rs| ==> ids[i] == rs[i].id
  {
    seq(|rs|, i requires 0 <= i < |rs| => rs[i].id)
  }

  /** A fresh room: lobby, nobody in it, no votes, no countdown, the five default venues. */
  function CreateDefaultRoomState(groupName: string): (r: Room)
    ensures r.round == Lobby && r.groupName == groupName
    ensures r.users == [] && r.votes == NoVotes && r.timerEnd == None
    ensures r.topDates == [] && r.topRestaurants == []
    ensures r.restaurants == DefaultRestaurants && |r.restaurants| == 5
    ensures Distinct(RestaurantIds(r.restaurants))
  {
    var ids := RestaurantIds(DefaultRestaurants);
    assert ids == ["r1", "r2", "r3", "r4", "r5"];
    Room(Lobby, groupName, [], NoVotes, None, [], [], DefaultRestaurants)
  }

  /** `getPublicState(roomId)` for a registered room. */
  function PublicState(roomId: int, room: Room): (s: Snapshot)
    ensures s.roomId == roomId && s.round == room.round && s.users == Values(room.users)
  {
    Snapshot(roomId, room.round, room.groupName, Values(room.users), room.timerEnd,
             room.topDates, room.topRestaurants, room.restaurants, room.votes)
  }

  /** Every roster entry is keyed by the id its user record carries. */
  predicate KeyedById(users: Roster)
  {
    forall i :: 0 <= i < |users| ==> users[i].1.id == users[i].0
  }

  /** Reading a snapshot back: the roster is rebuilt from the ids in the user records. */
  function RoomOfSnapshot(s: Snapshot): Room
  {
    Room(s.round, s.groupName, seq(|s.users|, i requires 0 <= i < |s.users| => (s.users[i].id, s.users[i])),
         s.votes, s.timerEnd, s.topDates, s.topRestaurants, s.restaurants)
  }

  /** A snapshot carries the whole room: reading it back gives the room it was taken of. */
  lemma SnapshotRoundTrip(roomId: int, room: Room)
    requires KeyedById(room.users)
    ensures RoomOfSnapshot(PublicState(roomId, room)) == room
  {
    var back := RoomOfSnapshot(PublicState(roomId, room));
    assert back.users == room.users by {
      assert |back.users| == |room.users|;
      forall i | 0 <= i < |room.users| ensures back.users[i] == room.users[i] {
        assert Values(room.users)[i] == room.users[i].1;
      }
    }
  }

  /** Number of roster entries with `isHost` set. */
  function HostCount(users: Roster): nat
  {
    if users == [] then 0
    else HostCount(users[..|users| - 1]) + (if users[|users| - 1].1.isHost then 1 else 0)
  }

  lemma {:induction false} HostCountUpdate(users: Roster, i: nat, e: (string, User))
    requires i < |users|
    ensures HostCount(users[i := e]) ==
            HostCount(users) - (if users[i].1.isHost then 1 else 0) + (if e.1.isHost then 1 else 0)
  {
    var n := |users|;
    var u := users[i := e];
    assert u[..n - 1] == if i == n - 1 then users[..n - 1] else users[..n - 1][i := e];
    if i < n - 1 {
      HostCountUpdate(users[..n - 1], i, e);
    }
  }

  /** Adding or overwriting a roster entry with a non-host user never adds a host. */
  lemma HostCountPutGuest(users: Roster, k: string, u: User)
    requires !u.isHost
    ensures HostCount(Put(users, k, u)) <= HostCount(users)
  {
    if Has(users, k) {
      HostCountUpdate(users, IndexOf(users, k), (k, u));
      assert Put(users, k, u) == users[IndexOf(users, k) := (k, u)];
    } else {
      assert Put(users, k, u)[..|users|] == users;
    }
  }

  /** Removing a socket from the roster never adds a host. */
  lemma {:induction false} HostCountRemove(users: Roster, k: string)
    ensures HostCount(Remove(users, k)) <= HostCount(users)
  {
    if users != [] {
      var p := users[..|users| - 1];
      HostCountRemove(p, k);
      var last := users[|users| - 1];
      if last.0 != k {
        assert (Remove(p, k) + [last])[..|Remove(p, k)|] == Remove(p, k);
      }
    }
  }

  /** Removing a socket keeps every remaining entry keyed by its own id. */
  lemma RemoveKeyedById(users: Roster, k: string)
    requires KeyedById(users)
    ensures KeyedById(Remove(users, k))
  {
    var r := Remove(users, k);
    forall i | 0 <= i < |r| ensures r[i].1.id == r[i].0 {
      assert r[i] in users;
    }
  }

  /** Every ledger holds at most one ballot per voter, as the keys of an object do. */
  predicate LedgersUnique(v: Votes)
  {
    Unique(v.round1) && Unique(v.round2) && Unique(v.round3) && Unique(v.round4)
  }

  /** What every registered room satisfies between events. */
  predicate WellFormed(room: Room)
  {
    && Unique(room.users) && KeyedById(room.users)
    && LedgersUnique(room.votes)
    && HostCount(room.users) <= 1
    && |room.users| >= 1
    && |room.topDates| <= 2 && |room.topRestaurants| <= 2
  }

  /** A room whose roster is one user, listed under that user's id, is well formed. */
  lemma SingleUserWellFormed(room: Room, u: User)
    requires room.users == [] && LedgersUnique(room.votes)
    requires |room.topDates| <= 2 && |room.topRestaurants| <= 2
    ensures Put(room.users, u.id, u) == [(u.id, u)]
    ensures WellFormed(room.(users := [(u.id, u)]))
  {
    var users := [(u.id, u)];
    assert Keys(users) == [u.id];
    assert users[..0] == [];
  }

  /** The items of every array ballot, ballot after ballot; other ballots add nothing. */
  function Flatten(ballots: seq<Selection>): seq<string>
  {
    if ballots == [] then []
    else
      var last := ballots[|ballots| - 1];
      Flatten(ballots[..|ballots| - 1]) + (if last.Picks? then last.items else [])
  }

  lemma FlattenSnoc(ballots: seq<Selection>, b: Selection)
    ensures Flatten(ballots + [b]) == Flatten(ballots) + (if b.Picks? then b.items else [])
  {
    assert (ballots + [b])[..|ballots|] == ballots;
  }

  /** An item is counted exactly when some array ballot selects it. */
  lemma {:induction false} FlattenHas(ballots: seq<Selection>, x: string)
    ensures x in Flatten(ballots) <==> exists i :: 0 <= i < |ballots| && ballots[i].Picks? && x in ballots[i].items
  {
    if ballots != [] {
      var p := ballots[..|ballots| - 1];
      FlattenHas(p, x);
      assert forall i :: 0 <= i < |p| ==> p[i] == ballots[i];
    }
  }

  /** The top-2 tally of a multi-select round (`sortedDates.slice(0, 2)`). */
  function Tally(ledger: Ledger): (top: seq<string>)
    ensures |top| <= 2
  {
    Top(Flatten(Values(ledger)), 2)
  }

  /** Dates carried into round 2: the tally, or the single fallback date `tomorrow`. */
  function TopDatesOf(room: Room, tomorrow: string): (ds: seq<string>)
    ensures 1 <= |ds| <= 2
  {
    var top := Tally(room.votes.round1);
    if top == [] then [tomorrow] else top
  }

  /** Venues carried into round 4: the tally, or the ids of the first two venues. */
  function TopRestaurantsOf(room: Room): (vs: seq<string>)
    ensures |vs| <= 2
  {
    var top := Tally(room.votes.round3);
    if top == [] then RestaurantIds(room.restaurants[..if |room.restaurants| < 2 then |room.restaurants| else 2])
    else top
  }

  /**
   * The room after `handleAdminAction(roomId, action)` for a registered room.
   * The predecessor round is not checked: every action applies from any round.
   * `start_round1` changes nothing now (its deferred half is `StartRound1Now`),
   * and an unrecognised action changes nothing.
   */
  function Advance(room: Room, action: Action, now: int, tomorrow: string): (r: Room)
    ensures r.users == room.users && r.restaurants == room.restaurants && r.groupName == room.groupName
    ensures action.StartRound1? || action.Unrecognised? ==> r == room
    ensures action.Reset? ==>
              (r.round == Lobby && r.votes == NoVotes && r.timerEnd == None &&
               r.topDates == [] && r.topRestaurants == [])
    ensures !action.Reset? ==> r.votes == room.votes
    ensures action.StartRound2? ==>
              (r.round == Round2 && r.timerEnd == Some(now + RoundDuration) &&
               r.topDates == TopDatesOf(room, tomorrow) && r.topRestaurants == room.topRestaurants)
    ensures action.StartRound3? ==>
              (r.round == Round3 && r.timerEnd == Some(now + RoundDuration) &&
               r.topDates == room.topDates && r.topRestaurants == room.topRestaurants)
    ensures action.StartRound4? ==>
              (r.round == Round4 && r.timerEnd == Some(now + RoundDuration) &&
               r.topRestaurants == TopRestaurantsOf(room) && r.topDates == room.topDates)
    ensures action.ShowResults? ==>
              (r.round == Results && r.timerEnd == None &&
               r.topDates == room.topDates && r.topRestaurants == room.topRestaurants)
    ensures WellFormed(room) ==> WellFormed(r)
  {
    match action
    case StartRound1 => room
    case StartRound2 =>
      room.(round := Round2, timerEnd := Some(now + RoundDuration), topDates := TopDatesOf(room, tomorrow))
    case StartRound3 =>
      room.(round := Round3, timerEnd := Some(now + RoundDuration))
    case StartRound4 =>
      room.(round := Round4, timerEnd := Some(now + RoundDuration), topRestaurants := TopRestaurantsOf(room))
    case ShowResults =>
      room.(round := Results, timerEnd := None)
    case Reset =>
      room.(round := Lobby, votes := NoVotes, timerEnd := None, topDates := [], topRestaurants := [])
    case Unrecognised(_) => room
  }

  /**
   * `room.votes[round][voter] = selection`: one ballot per socket and round,
   * a later ballot overwriting the earlier one in place.
   */
  function RecordVote(room: Room, voter: string, round: Round, selection: Selection): (r: Room)
    requires round.Voting()
    ensures r.votes.Of(round) == Put(room.votes.Of(round), voter, selection)
    ensures forall q: Round :: q.Voting() && q != round ==> r.votes.Of(q) == room.votes.Of(q)
    ensures r == room.(votes := r.votes)
    ensures WellFormed(room) ==> WellFormed(r)
  {
    room.(votes := room.votes.With(round, Put(room.votes.Of(round), voter, selection)))
  }

  /** Resubmitting the same selection leaves the room as the first submission did. */
  lemma RecordVoteTwice(room: Room, voter: string, round: Round, selection: Selection)
    requires round.Voting()
    ensures var once := RecordVote(room, voter, round, selection);
            RecordVote(once, voter, round, selection) == once
  {
    PutTwice(room.votes.Of(round), voter, selection);
  }

  /** The host action the auto-advance of a completed voting round triggers. */
  function NextAction(r: Round): (a: Action)
    requires r.Voting()
    ensures !a.StartRound1? && !a.Reset? && !a.Unrecognised?
  {
    match r
    case Round1 => StartRound2
    case Round2 => StartRound3
    case Round3 => StartRound4
    case Round4 => ShowResults
  }

  /** Round order of the auto-advance: round1, round2, round3, round4, results. */
  function Successor(r: Round): Round
    requires r.Voting()
  {
    match r
    case Round1 => Round2
    case Round2 => Round3
    case Round3 => Round4
    case Round4 => Results
  }

  /** Completing a voting round moves the room to the next round in the sequence. */
  lemma AutoAdvanceOrder(room: Room, now: int, tomorrow: string)
    requires room.round.Voting()
    ensures Advance(room, NextAction(room.round), now, tomorrow).round == Successor(room.round)
    ensures Successor(room.round) != room.round
  {
  }

  /**
   * The room after `submit_vote` accepts a ballot: the ballot recorded and,
   * once the round's ledger has at least as many entries as the room has
   * users, the transition to the next round.
   */
  function AfterVote(room: Room, voter: string, round: Round, selection: Selection, now: int, tomorrow: string): (r: Room)
    requires round.Voting()
    ensures var voted := RecordVote(room, voter, round, selection);
            && (|voted.votes.Of(round)| >= |room.users| ==>
                  r == Advance(voted, NextAction(round), now, tomorrow) && r.round == Successor(round))
            && (|voted.votes.Of(round)| < |room.users| ==> r == voted && r.round == room.round)
    ensures WellFormed(room) ==> WellFormed(r)
  {
    var voted := RecordVote(room, voter, round, selection);
    if |voted.votes.Of(round)| >= |voted.users| then Advance(voted, NextAction(round), now, tomorrow) else voted
  }

  /**
   * In a well-formed room a ledger's size is its number of distinct voters,
   * so the completion test of `submit_vote` compares voters with users.
   */
  lemma LedgerSizeCountsVoters(room: Room, round: Round)
    requires WellFormed(room) && round.Voting()
    ensures |room.votes.Of(round)| == |set v | v in Keys(room.votes.Of(round))|
  {
    DistinctCard(Keys(room.votes.Of(round)));
  }

  /** The tally is empty exactly when no array ballot selected anything. */
  lemma TallyEmpty(ledger: Ledger)
    ensures Tally(ledger) == [] <==> Flatten(Values(ledger)) == []
  {
    var xs := Flatten(Values(ledger));
    if xs != [] {
      RankedIsRanking(xs);
      assert xs[0] in Ranked(xs);
    }
  }

  /** Every candidate the tally keeps was selected in some array ballot of the ledger. */
  lemma TallyChosen(ledger: Ledger)
    ensures forall d :: d in Tally(ledger) ==>
              exists i :: 0 <= i < |ledger| && ledger[i].1.Picks? && d in ledger[i].1.items
  {
    var xs := Flatten(Values(ledger));
    RankedIsRanking(xs);
    forall d | d in Tally(ledger)
      ensures exists i :: 0 <= i < |ledger| && ledger[i].1.Picks? && d in ledger[i].1.items
    {
      assert d in Ranked(xs);
      FlattenHas(Values(ledger), d);
      var i :| 0 <= i < |Values(ledger)| && Values(ledger)[i].Picks? && d in Values(ledger)[i].items;
      assert ledger[i].1 == Values(ledger)[i];
    }
  }

  /**
   * The dates carried into round 2: the single date `tomorrow` when no
   * round-1 ballot selected a date, otherwise one or two dates, each selected
   * in some round-1 ballot, ranked as `TopSpec` states.
   */
  lemma TopDatesSpec(room: Room, tomorrow: string)
    ensures var ds := TopDatesOf(room, tomorrow);
            && (Flatten(Values(room.votes.round1)) == [] ==> ds == [tomorrow])
            && (Flatten(Values(room.votes.round1)) != [] ==>
                  && ds == Top(Flatten(Values(room.votes.round1)), 2)
                  && forall d :: d in ds ==>
                       exists i :: 0 <= i < |room.votes.round1| && room.votes.round1[i].1.Picks? &&
                                   d in room.votes.round1[i].1.items)
  {
    TallyEmpty(room.votes.round1);
    TallyChosen(room.votes.round1);
  }

  /**
   * The venues carried into round 4: the ids of the first (at most) two
   * venues when no round-3 ballot selected a venue, otherwise one or two ids,
   * each selected in some round-3 ballot, ranked as `TopSpec` states.
   */
  lemma TopRestaurantsSpec(room: Room)
    ensures var vs := TopRestaurantsOf(room);
            && (Flatten(Values(room.votes.round3)) == [] ==>
                  vs == RestaurantIds(room.restaurants)[..if |room.restaurants| < 2 then |room.restaurants| else 2])
            && (Flatten(Values(room.votes.round3)) != [] ==>
                  && vs == Top(Flatten(Values(room.votes.round3)), 2) && vs != []
                  && forall v :: v in vs ==>
                       exists i :: 0 <= i < |room.votes.round3| && room.votes.round3[i].1.Picks? &&
                                   v in room.votes.round3[i].1.items)
  {
    TallyEmpty(room.votes.round3);
    TallyChosen(room.votes.round3);
    var n := if |room.restaurants| < 2 then |room.restaurants| else 2;
    assert RestaurantIds(room.restaurants[..n]) == RestaurantIds(room.restaurants)[..n];
  }
}
