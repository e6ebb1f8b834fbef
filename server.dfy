/**
 * The socket event handlers of `server.js` over the process-wide `rooms`
 * registry. Each inbound event is one method that runs to completion; the
 * messages it emits are returned in emission order instead of being sent.
 */
module Server {
  import opened OrderedMap
  import opened Ranking
  import opened RoomState

  /** `Math.floor(1000 + Math.random() * 9000)` lies in this range. */
  const MinRoomId: int := 1000
  const MaxRoomId: int := 9999

  /** Outbound messages. `to` is the one socket a private message goes to. */
  datatype Msg =
    | LoginSuccess(to: string, roomId: int, name: string, isHost: bool)
    | StateUpdate(roomId: int, state: Snapshot)
    | Error(to: string, text: string)
    | ShowCountdown(roomId: int)

  /** What the venue lookup of `create_room` produced. */
  datatype Lookup =
    | NoLocation                        // no `locationData` was sent
    | LookupFailed                      // `fetchNearbyRestos` gave null
    | Found(found: seq<Restaurant>)     // `fetchNearbyRestos` gave this list

  /** Decimal digits of a count, as a template literal renders it. */
  function NatToString(n: nat): (s: string)
    ensures |s| >= 1
    ensures forall i :: 0 <= i < |s| ==> '0' <= s[i] <= '9'
    ensures s[0] == '0' ==> n == 0
  {
    var d := ['0' + (n % 10) as char];
    if n < 10 then d else NatToString(n / 10) + d
  }

  /** The number a string of decimal digits denotes, most significant first. */
  function DecimalValue(s: string): nat
    requires forall i :: 0 <= i < |s| ==> '0' <= s[i] <= '9'
  {
    if s == [] then 0
    else 10 * DecimalValue(s[..|s| - 1]) + (s[|s| - 1] - '0') as nat
  }

  /**
   * The numeral is the decimal numeral of `n`: it denotes `n` and has no
   * leading zero, so it is the one `${n}` writes.
   */
  lemma {:induction false} NatToStringValue(n: nat)
    ensures DecimalValue(NatToString(n)) == n
    ensures |NatToString(n)| > 1 ==> NatToString(n)[0] != '0'
  {
    var s := NatToString(n);
    if n >= 10 {
      NatToStringValue(n / 10);
      assert s[..|s| - 1] == NatToString(n / 10);
    }
  }

  /** The private notices `create_room` sends about the venue lookup. */
  function LookupNotices(caller: string, lookup: Lookup): seq<Msg>
  {
    match lookup
    case NoLocation => []
    case LookupFailed => [Error(caller, "Gagal memuat peta OSM, menggunakan restoran cadangan.")]
    case Found(rs) => [Error(caller, "Menemukan " + NatToString(|rs|) + " Restoran!")]
  }

  /**
   * The venue list a new room starts with: the lookup's list when there is
   * one, else the list the client sent (a missing or non-array `restaurants`
   * is `None`), and the defaults when that is missing or empty.
   */
  function SeededRestaurants(given: Option<seq<Restaurant>>, lookup: Lookup): (rs: seq<Restaurant>)
    ensures |rs| >= 1
    ensures lookup.Found? && |lookup.found| > 0 ==> rs == lookup.found
    ensures !lookup.Found? && given.Some? && |given.value| > 0 ==> rs == given.value
    ensures ((lookup.Found? && |lookup.found| == 0) ||
             (!lookup.Found? && (given.None? || |given.value| == 0))) ==> rs == DefaultRestaurants
  {
    var final := if lookup.Found? then Some(lookup.found) else given;
    if final.Some? && |final.value| > 0 then final.value else DefaultRestaurants
  }

  /** The inner loop of the tally, over the items of one array ballot. */
  method CountItems(counts: Counts, ghost seen: seq<string>, items: seq<string>) returns (r: Counts)
    requires counts == Counted(seen)
    ensures r == Counted(seen + items)
  {
    r := counts;
    var j := 0;
    PrefixSnoc(seen, items, 0);
    while j < |items|
      invariant 0 <= j <= |items|
      invariant r == Counted(seen + items[..j])
    {
      PrefixSnoc(seen, items, j);
      r := CountOne(r, seen + items[..j], items[j]);
      j := j + 1;
    }
  }

  /** The counting loop of `start_round2` / `start_round4`, over every ballot of a ledger. */
  method CountBallots(ledger: Ledger) returns (counts: Counts)
    ensures counts == Counted(Flatten(Values(ledger)))
  {
    var ballots := Values(ledger);
    counts := [];
    ghost var flat: seq<string> := [];
    var i := 0;
    while i < |ballots|
      invariant 0 <= i <= |ballots|
      invariant flat == Flatten(ballots[..i])
      invariant counts == Counted(flat)
    {
      var b := ballots[i];
      FlattenSnoc(ballots[..i], b);
      assert ballots[..i + 1] == ballots[..i] + [b];
      if b.Picks? {
        counts := CountItems(counts, flat, b.items);
        flat := flat + b.items;
      } else {
        assert flat + [] == flat;
      }
      i := i + 1;
    }
    assert ballots[..i] == ballots;
  }

  /** `Object.keys(counts).sort((a, b) => counts[b] - counts[a]).slice(0, 2)` */
  method TallyRound(ledger: Ledger) returns (top: seq<string>)
    ensures top == Tally(ledger)
  {
    var counts := CountBallots(ledger);
    var sorted := Keys(SortByCount(counts));
    top := sorted[..if |sorted| < 2 then |sorted| else 2];
  }

  /** Every registered room has a four-digit id and satisfies the room invariant. */
  ghost predicate RoomsValid(rs: map<int, Room>)
  {
    forall id :: id in rs ==> MinRoomId <= id <= MaxRoomId && WellFormed(rs[id])
  }

  lemma StoreValid(rs: map<int, Room>, id: int, room: Room)
    requires RoomsValid(rs) && MinRoomId <= id <= MaxRoomId && WellFormed(room)
    ensures RoomsValid(rs[id := room])
  {
  }

  lemma DropValid(rs: map<int, Room>, id: int)
    requires RoomsValid(rs)
    ensures RoomsValid(rs - {id})
  {
  }

  /**
   * The venue half of `create_room`: the list the room is seeded with and
   * the private notices about the lookup.
   */
  method SeedVenues(caller: string, given: Option<seq<Restaurant>>, lookup: Lookup)
    returns (restaurants: seq<Restaurant>, notices: seq<Msg>)
    ensures restaurants == SeededRestaurants(given, lookup)
    ensures notices == LookupNotices(caller, lookup)
  {
    var finalRestos := given;
    notices := [];
    if lookup.Found? {
      finalRestos := Some(lookup.found);
      notices := [Error(caller, "Menemukan " + NatToString(|lookup.found|) + " Restoran!")];
    } else if lookup.LookupFailed? {
      notices := [Error(caller, "Gagal memuat peta OSM, menggunakan restoran cadangan.")];
    }
    restaurants := DefaultRestaurants;
    if finalRestos.Some? && |finalRestos.value| > 0 {
      restaurants := finalRestos.value;
    }
  }

  /**
   * The room `create_room` registers and the private notices it sends about
   * the venue lookup before `login_success`.
   */
  method NewRoom(caller: string, name: string, groupName: string, given: Option<seq<Restaurant>>, lookup: Lookup)
    returns (room: Room, notices: seq<Msg>)
    ensures room.round == Lobby && room.votes == NoVotes && room.timerEnd == None
    ensures room.topDates == [] && room.topRestaurants == []
    ensures room.groupName == (if groupName == "" then DefaultGroupName else groupName)
    ensures room.users == [(caller, User(caller, name, true))]
    ensures room.restaurants == SeededRestaurants(given, lookup)
    ensures WellFormed(room) && HostCount(room.users) == 1
    ensures notices == LookupNotices(caller, lookup)
  {
    room := CreateDefaultRoomState(if groupName == "" then DefaultGroupName else groupName);
    var restaurants;
    restaurants, notices := SeedVenues(caller, given, lookup);
    room := room.(restaurants := restaurants);
    var host := User(caller, name, true);
    SingleUserWellFormed(room, host);
    room := room.(users := Put(room.users, caller, host));
  }

  /** The room after `handleAdminAction(roomId, action)`, computed as the handler does. */
  method Transition(room: Room, action: Action, now: int, tomorrow: string) returns (r: Room)
    ensures r == Advance(room, action, now, tomorrow)
  {
    r := room;
    match action {
      case StartRound1 =>
      case StartRound2 =>
        var top := TallyRound(r.votes.round1);
        r := r.(topDates := top);
        if |r.topDates| == 0 {
          r := r.(topDates := [tomorrow]);
        }
        r := r.(round := Round2, timerEnd := Some(now + RoundDuration));
      case StartRound3 =>
        r := r.(round := Round3, timerEnd := Some(now + RoundDuration));
      case StartRound4 =>
        var top := TallyRound(r.votes.round3);
        r := r.(topRestaurants := top);
        if |r.topRestaurants| == 0 {
          var n := if |r.restaurants| < 2 then |r.restaurants| else 2;
          r := r.(topRestaurants := RestaurantIds(r.restaurants[..n]));
        }
        r := r.(round := Round4, timerEnd := Some(now + RoundDuration));
      case ShowResults =>
        r := r.(round := Results, timerEnd := None);
      case Reset =>
        r := r.(round := Lobby, votes := NoVotes, timerEnd := None, topDates := [], topRestaurants := []);
      case Unrecognised(_) =>
    }
  }

  class Registry {
    /** `rooms`: room id to room session. */
    var rooms: map<int, Room>

    ghost predicate Valid()
      reads this
    {
      RoomsValid(rooms)
    }

    /** `caller` is a registered participant of room `roomId` flagged as host. */
    ghost predicate IsHost(caller: string, roomId: int)
      reads this
    {
      roomId in rooms && Has(rooms[roomId].users, caller) && Get(rooms[roomId].users, caller).isHost
    }

    /** The registry at process start. */
    constructor ()
      ensures Valid() && rooms == map[]
    {
      rooms := map[];
    }

    /**
     * `create_room`: a fresh lobby room under `roomId` (replacing any room
     * already registered there), with `caller` as its only user and host.
     */
    method CreateRoom(caller: string, roomId: int, name: string, groupName: string,
                      given: Option<seq<Restaurant>>, lookup: Lookup)
      returns (out: seq<Msg>)
      requires Valid()
      requires MinRoomId <= roomId <= MaxRoomId
      modifies this
      ensures Valid()
      ensures roomId in rooms && rooms == old(rooms)[roomId := rooms[roomId]]
      ensures var room := rooms[roomId];
              && room.round == Lobby && room.votes == NoVotes && room.timerEnd == None
              && room.topDates == [] && room.topRestaurants == []
              && room.groupName == (if groupName == "" then DefaultGroupName else groupName)
              && room.users == [(caller, User(caller, name, true))]
              && room.restaurants == SeededRestaurants(given, lookup)
      ensures out == LookupNotices(caller, lookup) +
                     [LoginSuccess(caller, roomId, name, true), StateUpdate(roomId, PublicState(roomId, rooms[roomId]))]
    {
      var room, notices := NewRoom(caller, name, groupName, given, lookup);
      StoreValid(rooms, roomId, room);
      rooms := rooms[roomId := room];
      out := notices + [LoginSuccess(caller, roomId, name, true), StateUpdate(roomId, PublicState(roomId, room))];
    }

    /**
     * `join_room`: `caller` is added (or, if already there, overwritten in
     * place) as a non-host user; an unknown room only gets a private error.
     */
    method JoinRoom(caller: string, roomId: int, name: string) returns (out: seq<Msg>)
      requires Valid()
      modifies this
      ensures Valid()
      ensures roomId !in old(rooms) ==> rooms == old(rooms) && out == [Error(caller, "Room not found")]
      ensures roomId in old(rooms) ==>
                && rooms == old(rooms)[roomId := old(rooms)[roomId].(
                     users := Put(old(rooms)[roomId].users, caller, User(caller, name, false)))]
                && HostCount(rooms[roomId].users) <= HostCount(old(rooms)[roomId].users)
                && out == [LoginSuccess(caller, roomId, name, false), StateUpdate(roomId, PublicState(roomId, rooms[roomId]))]
    {
      if roomId !in rooms {
        out := [Error(caller, "Room not found")];
        return;
      }
      var room := rooms[roomId];
      var guest := User(caller, name, false);
      HostCountPutGuest(room.users, caller, guest);
      room := room.(users := Put(room.users, caller, guest));
      StoreValid(rooms, roomId, room);
      rooms := rooms[roomId := room];
      out := [LoginSuccess(caller, roomId, name, false), StateUpdate(roomId, PublicState(roomId, room))];
    }

    /**
     * `handleAdminAction(roomId, action)`: the transition `Advance` describes,
     * then one `state_update`; `start_round1` instead sends only
     * `show_countdown` and leaves the room as it is.
     */
    method HandleAdminAction(roomId: int, action: Action, now: int, tomorrow: string) returns (out: seq<Msg>)
      requires Valid()
      modifies this
      ensures Valid()
      ensures roomId !in old(rooms) ==> rooms == old(rooms) && out == []
      ensures roomId in old(rooms) ==>
                && rooms == old(rooms)[roomId := Advance(old(rooms)[roomId], action, now, tomorrow)]
                && out == if action.StartRound1? then [ShowCountdown(roomId)]
                          else [StateUpdate(roomId, PublicState(roomId, rooms[roomId]))]
    {
      if roomId !in rooms {
        return [];
      }
      if action.StartRound1? {
        return [ShowCountdown(roomId)];
      }
      var room := Transition(rooms[roomId], action, now, tomorrow);
      StoreValid(rooms, roomId, room);
      rooms := rooms[roomId := room];
      out := [StateUpdate(roomId, PublicState(roomId, room))];
    }

    /** A vote that `submit_vote` records: known room and member, and the room's current round. */
    ghost predicate Accepts(caller: string, roomId: int, round: Round)
      reads this
    {
      roomId in rooms && Has(rooms[roomId].users, caller) && rooms[roomId].round == round
    }

    /**
     * The accepted half of `submit_vote`: the room becomes `AfterVote` of
     * itself, with exactly one broadcast either way (the transition's own, or
     * the live update of a round still in progress).
     */
    method CastVote(caller: string, roomId: int, round: Round, selection: Selection, now: int, tomorrow: string)
      returns (out: seq<Msg>)
      requires Valid() && Accepts(caller, roomId, round) && round.Voting()
      modifies this
      ensures Valid()
      ensures rooms == old(rooms)[roomId := AfterVote(old(rooms)[roomId], caller, round, selection, now, tomorrow)]
      ensures out == [StateUpdate(roomId, PublicState(roomId, rooms[roomId]))]
    {
      var room := RecordVote(rooms[roomId], caller, round, selection);
      var totalVoters := |room.users|;
      var currentVotes := |room.votes.Of(round)|;
      if currentVotes >= totalVoters {
        // `handleAdminAction(roomId, next)`: the room is registered and `next`
        // is not `start_round1`, so it is the transition and one broadcast.
        room := Transition(room, NextAction(round), now, tomorrow);
      }
      StoreValid(rooms, roomId, room);
      rooms := rooms[roomId := room];
      out := [StateUpdate(roomId, PublicState(roomId, room))];
    }

    /**
     * `submit_vote`: `CastVote` for a member voting in the room's current
     * round. Votes from outside the room or for another round are dropped
     * silently. A matching round without a ledger (lobby, results) throws
     * before anything changes: `fault`.
     */
    method SubmitVote(caller: string, roomId: int, round: Round, selection: Selection, now: int, tomorrow: string)
      returns (out: seq<Msg>, fault: bool)
      requires Valid()
      modifies this
      ensures Valid()
      ensures fault == (old(Accepts(caller, roomId, round)) && !round.Voting())
      ensures !old(Accepts(caller, roomId, round)) || fault ==> rooms == old(rooms) && out == []
      ensures old(Accepts(caller, roomId, round)) && round.Voting() ==>
                && rooms == old(rooms)[roomId := AfterVote(old(rooms)[roomId], caller, round, selection, now, tomorrow)]
                && out == [StateUpdate(roomId, PublicState(roomId, rooms[roomId]))]
    {
      fault := false;
      out := [];
      if roomId in rooms && Has(rooms[roomId].users, caller) && rooms[roomId].round == round {
        if round.Voting() {
          out := CastVote(caller, roomId, round, selection, now, tomorrow);
        } else {
          fault := true;
        }
      }
    }

    /**
     * `admin_update_restaurants`: the host replaces the venue list wholesale
     * while the room is in the lobby; anything else is silently ignored.
     */
    method AdminUpdateRestaurants(caller: string, roomId: int, restaurants: seq<Restaurant>)
      returns (out: seq<Msg>)
      requires Valid()
      modifies this
      ensures Valid()
      ensures !old(IsHost(caller, roomId)) || old(rooms)[roomId].round != Lobby ==>
                rooms == old(rooms) && out == []
      ensures old(IsHost(caller, roomId)) && old(rooms)[roomId].round == Lobby ==>
                rooms == old(rooms)[roomId := old(rooms)[roomId].(restaurants := restaurants)] &&
                out == [StateUpdate(roomId, PublicState(roomId, rooms[roomId]))]
    {
      out := [];
      if roomId !in rooms || !Has(rooms[roomId].users, caller) || !Get(rooms[roomId].users, caller).isHost {
        return;
      }
      if rooms[roomId].round == Lobby {
        var room := rooms[roomId].(restaurants := restaurants);
        StoreValid(rooms, roomId, room);
        rooms := rooms[roomId := room];
        out := [StateUpdate(roomId, PublicState(roomId, room))];
      }
    }

    /** `admin_action`: `handleAdminAction` for the host; silently ignored for anyone else. */
    method AdminAction(caller: string, roomId: int, action: Action, now: int, tomorrow: string)
      returns (out: seq<Msg>)
      requires Valid()
      modifies this
      ensures Valid()
      ensures !old(IsHost(caller, roomId)) ==> rooms == old(rooms) && out == []
      ensures old(IsHost(caller, roomId)) ==>
                && rooms == old(rooms)[roomId := Advance(old(rooms)[roomId], action, now, tomorrow)]
                && out == if action.StartRound1? then [ShowCountdown(roomId)]
                          else [StateUpdate(roomId, PublicState(roomId, rooms[roomId]))]
    {
      if roomId !in rooms || !Has(rooms[roomId].users, caller) || !Get(rooms[roomId].users, caller).isHost {
        return [];
      }
      out := HandleAdminAction(roomId, action, now, tomorrow);
    }

    /**
     * The deferred half of `start_round1`, four seconds later: the room is
     * looked up again by id, and only if one is registered under that id does
     * it enter round 1 with a fresh ten-minute deadline and get one broadcast.
     */
    method StartRound1Now(roomId: int, now: int) returns (out: seq<Msg>)
      requires Valid()
      modifies this
      ensures Valid()
      ensures roomId !in old(rooms) ==> rooms == old(rooms) && out == []
      ensures roomId in old(rooms) ==>
                && rooms == old(rooms)[roomId := old(rooms)[roomId].(round := Round1, timerEnd := Some(now + RoundDuration))]
                && out == [StateUpdate(roomId, PublicState(roomId, rooms[roomId]))]
    {
      out := [];
      if roomId in rooms {
        var room := rooms[roomId].(round := Round1, timerEnd := Some(now + RoundDuration));
        StoreValid(rooms, roomId, room);
        rooms := rooms[roomId := room];
        out := [StateUpdate(roomId, PublicState(roomId, room))];
      }
    }

    /**
     * `disconnect`: rooms are scanned in ascending id order (how `for...in`
     * visits integer-like keys) and `caller` is removed from the first room
     * listing it. That room is deleted if nobody is left, otherwise it gets
     * one broadcast. Ledgers keep the caller's votes. `left` names the room.
     * Every registered id lies in `MinRoomId..MaxRoomId`, so stepping through
     * that range and skipping unregistered ids visits the rooms in that order.
     */
    method Disconnect(caller: string) returns (out: seq<Msg>, ghost left: Option<int>)
      requires Valid()
      modifies this
      ensures Valid()
      ensures left.None? ==>
                rooms == old(rooms) && out == [] &&
                forall id :: id in rooms ==> !Has(rooms[id].users, caller)
      ensures left.Some? ==>
                var id := left.value;
                && id in old(rooms) && Has(old(rooms)[id].users, caller)
                && (forall j :: j in old(rooms) && j < id ==> !Has(old(rooms)[j].users, caller))
                && var rest := Remove(old(rooms)[id].users, caller);
                   && (rest == [] ==> rooms == old(rooms) - {id} && out == [])
                   && (rest != [] ==>
                         rooms == old(rooms)[id := old(rooms)[id].(users := rest)] &&
                         out == [StateUpdate(id, PublicState(id, rooms[id]))])
    {
      out := [];
      left := None;
      var id := MinRoomId;
      while id <= MaxRoomId
        invariant MinRoomId <= id <= MaxRoomId + 1
        invariant rooms == old(rooms)
        invariant forall j :: j in rooms && j < id ==> !Has(rooms[j].users, caller)
      {
        if id in rooms && Has(rooms[id].users, caller) {
          var room := rooms[id];
          var rest := Remove(room.users, caller);
          RemoveKeyedById(room.users, caller);
          HostCountRemove(room.users, caller);
          left := Some(id);
          if |rest| == 0 {
            DropValid(rooms, id);
            rooms := rooms - {id};
          } else {
            StoreValid(rooms, id, room.(users := rest));
            rooms := rooms[id := room.(users := rest)];
            out := [StateUpdate(id, PublicState(id, rooms[id]))];
          }
          return;
        }
        id := id + 1;
      }
    }
  }
}
