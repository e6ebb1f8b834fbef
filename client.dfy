/**
 * The browser side of `public/app.js` that decides what gets voted and what
 * the results screen shows: the selection state behind each round's option
 * boxes and submit button, and the counting behind the results screen.
 */
module Client {
  import opened OrderedMap
  import opened Ranking
  import opened RoomState

  /** A multi-select round accepts at most this many options. */
  const MaxPicks: nat := 3

  /** `s.filter(d => d !== o)` */
  function Without(s: seq<string>, o: string): (r: seq<string>)
    ensures forall x :: x in r <==> x in s && x != o
    ensures |r| <= |s|
    ensures o in s ==> |r| < |s|
    ensures Distinct(s) ==> Distinct(r)
  {
    if s == [] then []
    else
      var rest := Without(s[1..], o);
      assert forall x :: x in s <==> x == s[0] || x in s[1..];
      if s[0] == o then rest
      else
        assert Distinct(s) ==> s[0] !in s[1..] && Distinct(s[1..]) by {
          if Distinct(s) {
            assert forall i :: 0 <= i < |s[1..]| ==> s[1..][i] == s[i + 1];
          }
        }
        [s[0]] + rest
  }

  /**
   * One tap on an option box of round 1 or 3: a selected option is
   * deselected; an unselected one is appended while fewer than three are
   * selected, and otherwise the tap does nothing.
   */
  function Toggled(s: seq<string>, o: string): (r: seq<string>)
    ensures o in r <==> o !in s && |s| < MaxPicks
    ensures forall x :: x != o ==> (x in r <==> x in s)
    ensures o !in s && |s| < MaxPicks ==> r == s + [o]
    ensures o !in s && |s| >= MaxPicks ==> r == s
    ensures o in s ==> r == Without(s, o)
    ensures |s| <= MaxPicks ==> |r| <= MaxPicks
    ensures Distinct(s) ==> Distinct(r)
  {
    if o in s then Without(s, o) else if |s| < MaxPicks then s + [o] else s
  }

  /**
   * Two taps on the same box restore the set of selected options (the
   * re-selected option moves to the end), and restore the list exactly when
   * the first tap selected it.
   */
  lemma ToggleTwice(s: seq<string>, o: string)
    requires Distinct(s) && |s| <= MaxPicks
    ensures Elements(Toggled(Toggled(s, o), o)) == Elements(s)
    ensures o !in s && |s| < MaxPicks ==> Toggled(Toggled(s, o), o) == s
  {
    if o !in s && |s| < MaxPicks {
      var t := s + [o];
      assert Without(t, o) == s by { WithoutAbsent(s, o); WithoutSnoc(s, o, o); }
    }
  }

  lemma {:induction false} WithoutAbsent(s: seq<string>, o: string)
    requires o !in s
    ensures Without(s, o) == s
  {
    if s != [] {
      WithoutAbsent(s[1..], o);
      assert s == [s[0]] + s[1..];
    }
  }

  /**
   * The filter works element by element from the left: filtering a list with
   * one more element appends that element when it is kept, so the kept
   * options stay in their order.
   */
  lemma {:induction false} WithoutSnoc(s: seq<string>, x: string, o: string)
    ensures Without(s + [x], o) == Without(s, o) + (if x == o then [] else [x])
  {
    if s == [] {
      assert Without([x], o) == (if x == o then [] else [x]) + Without([x][1..], o);
    } else {
      assert (s + [x])[1..] == s[1..] + [x];
      WithoutSnoc(s[1..], x, o);
    }
  }

  /**
   * The selection of a multi-select round (`selectedDatesR1` or
   * `selectedRestosR3`) together with its submit button.
   */
  class MultiPick {
    /** The ids of the option boxes shown. */
    const options: seq<string>
    var selected: seq<string>
    var submitDisabled: bool
    var buttonText: string

    ghost predicate Valid()
      reads this
    {
      && Distinct(selected) && |selected| <= MaxPicks
      && (forall x :: x in selected ==> x in options)
      && (!submitDisabled ==> selected != [])
    }

    /** `renderRound1` / `renderRound3`: nothing selected, submit disabled. */
    constructor (options: seq<string>)
      ensures Valid()
      ensures this.options == options && selected == [] && submitDisabled && buttonText == "Submit Votes"
    {
      this.options := options;
      selected := [];
      submitDisabled := true;
      buttonText := "Submit Votes";
    }

    /**
     * A tap on the box of `option`. The box's `voted-disabled` guard never
     * fires, since nothing adds that class, so taps after a submit still
     * change the selection and re-enable the button.
     */
    method Toggle(option: string)
      requires Valid() && option in options
      modifies this
      ensures Valid()
      ensures selected == Toggled(old(selected), option)
      ensures submitDisabled == (selected == [])
      ensures buttonText == old(buttonText)
    {
      if option in selected {
        selected := Without(selected, option);
      } else if |selected| < MaxPicks {
        selected := selected + [option];
      }
      submitDisabled := |selected| == 0;
    }

    /** A click on the enabled submit button: the ballot sent with `submit_vote`. */
    method Submit() returns (ballot: Selection)
      requires Valid() && !submitDisabled
      modifies this
      ensures Valid()
      ensures ballot == Picks(selected) && selected == old(selected)
      ensures 1 <= |ballot.items| <= MaxPicks && Distinct(ballot.items)
      ensures forall x :: x in ballot.items ==> x in options
      ensures submitDisabled && buttonText == "Voted!"
    {
      ballot := Picks(selected);
      submitDisabled := true;
      buttonText := "Voted!";
    }
  }

  /**
   * The selection of a single-select round (`selectedDateR2` or
   * `selectedRestoR4`) together with its submit button; `NoPick` is `null`.
   */
  class SinglePick {
    const options: seq<string>
    var choice: Selection
    var submitDisabled: bool
    var buttonText: string

    ghost predicate Valid()
      reads this
    {
      && (choice.NoPick? || (choice.Pick? && choice.item in options))
      && (!submitDisabled ==> choice.Pick?)
    }

    /** `renderRound2` / `renderRound4`: nothing chosen, submit disabled. */
    constructor (options: seq<string>)
      ensures Valid()
      ensures this.options == options && choice == NoPick && submitDisabled && buttonText == "Submit Vote"
    {
      this.options := options;
      choice := NoPick;
      submitDisabled := true;
      buttonText := "Submit Vote";
    }

    /** A tap on the box of `option`: it becomes the one choice, submit is enabled. */
    method Choose(option: string)
      requires Valid() && option in options
      modifies this
      ensures Valid()
      ensures choice == Pick(option) && !submitDisabled && buttonText == old(buttonText)
    {
      choice := Pick(option);
      submitDisabled := false;
    }

    /** A click on the enabled submit button: the ballot sent with `submit_vote`. */
    method Submit() returns (ballot: Selection)
      requires Valid() && !submitDisabled
      modifies this
      ensures Valid()
      ensures ballot == choice && choice == old(choice)
      ensures ballot.Pick? && ballot.item in options
      ensures submitDisabled && buttonText == "Voted!"
    {
      ballot := choice;
      submitDisabled := true;
      buttonText := "Voted!";
    }
  }

  /** `xs.join(",")`, as a ballot array becomes a property name. */
  function Join(xs: seq<string>): (s: string)
    ensures xs == [] ==> s == ""
    ensures |xs| == 1 ==> s == xs[0]
  {
    if xs == [] then "" else if |xs| == 1 then xs[0] else xs[0] + "," + Join(xs[1..])
  }

  /** The property name a ballot becomes in `counts[d]`. */
  function KeyOf(s: Selection): string
  {
    match s
    case Pick(x) => x
    case NoPick => "null"
    case Picks(xs) => Join(xs)
  }

  /** `Object.values(ledger)` as counting keys. */
  function VoteKeys(ledger: Ledger): (ks: seq<string>)
    ensures |ks| == |ledger|
    ensures forall i :: 0 <= i < |ledger| ==> ks[i] == KeyOf(ledger[i].1)
  {
    seq(|ledger|, i requires 0 <= i < |ledger| => KeyOf(ledger[i].1))
  }

  /** The `forEach(d => counts[d] = (counts[d] || 0) + 1)` loop of `renderResults`. */
  method CountVotes(ledger: Ledger) returns (counts: Counts)
    ensures counts == Counted(VoteKeys(ledger))
  {
    ghost var keys := VoteKeys(ledger);
    ghost var seen: seq<string> := [];
    counts := [];
    var i := 0;
    while i < |ledger|
      invariant 0 <= i <= |ledger|
      invariant seen == keys[..i]
      invariant counts == Counted(seen)
    {
      var k := KeyOf(ledger[i].1);
      counts := CountOne(counts, seen, k);
      seen := seen + [k];
      SliceSnoc(keys, i);
      i := i + 1;
    }
    assert keys[..i] == keys;
  }

  /**
   * The date on the results screen: the leading round-2 ballot, or `TBD`
   * when there are no round-2 ballots or the leading key is empty.
   */
  function DateWinner(ledger: Ledger): (w: string)
    ensures ledger == [] ==> w == "TBD"
    ensures forall v :: IsLeader(VoteKeys(ledger), v) ==> w == (if v == "" then "TBD" else v)
  {
    var sorted := Ranked(VoteKeys(ledger));
    assert forall v :: IsLeader(VoteKeys(ledger), v) ==> v == sorted[0] by {
      forall v | IsLeader(VoteKeys(ledger), v) ensures v == sorted[0] {
        RankedLeader(VoteKeys(ledger));
        LeaderUnique(VoteKeys(ledger), v, sorted[0]);
      }
    }
    if |sorted| > 0 && sorted[0] != "" then sorted[0] else "TBD"
  }

  /** `restaurants.find(r => r.id === id)` */
  function FindById(rs: seq<Restaurant>, id: string): (r: Option<Restaurant>)
    ensures r.None? <==> forall i :: 0 <= i < |rs| ==> rs[i].id != id
    ensures r.Some? ==> exists i :: 0 <= i < |rs| && rs[i] == r.value && rs[i].id == id &&
                                    forall j :: 0 <= j < i ==> rs[j].id != id
  {
    if rs == [] then None
    else if rs[0].id == id then Some(rs[0])
    else
      var r := FindById(rs[1..], id);
      assert forall i :: 0 < i < |rs| ==> rs[i] == rs[1..][i - 1];
      r
  }

  /**
   * The venue on the results screen: the venue whose id is the leading
   * round-4 ballot, or none (`TBD`) when there are no round-4 ballots or no
   * venue has that id.
   */
  function VenueWinner(ledger: Ledger, rs: seq<Restaurant>): (v: Option<Restaurant>)
    ensures ledger == [] ==> v == None
    ensures forall w :: IsLeader(VoteKeys(ledger), w) ==> v == FindById(rs, w)
  {
    var sorted := Ranked(VoteKeys(ledger));
    assert forall w :: IsLeader(VoteKeys(ledger), w) ==> w == sorted[0] by {
      forall w | IsLeader(VoteKeys(ledger), w) ensures w == sorted[0] {
        RankedLeader(VoteKeys(ledger));
        LeaderUnique(VoteKeys(ledger), w, sorted[0]);
      }
    }
    if |sorted| > 0 then FindById(rs, sorted[0]) else None
  }

  function VenueName(v: Option<Restaurant>): string
  {
    if v.Some? then v.value.name else "TBD"
  }

  /**
   * `topRestaurants.map(id => restaurants.find(r => r.id === id)).filter(Boolean)`:
   * the venue records of the carried-over ids, in that order, unknown ids dropped.
   */
  function TopOptions(ids: seq<string>, rs: seq<Restaurant>): (out: seq<Restaurant>)
    ensures |out| <= |ids|
    ensures forall r :: r in out ==> r in rs && r.id in ids
    ensures forall id :: id in ids && FindById(rs, id).Some? ==> FindById(rs, id).value in out
    ensures (forall id :: id in ids ==> FindById(rs, id).Some?) ==> |out| == |ids|
  {
    if ids == [] then []
    else
      var rest := TopOptions(ids[1..], rs);
      assert forall id :: id in ids <==> id == ids[0] || id in ids[1..];
      match FindById(rs, ids[0])
      case Some(r) => [r] + rest
      case None => rest
  }

  /** Appending an id appends its record, if any: the records keep the order of the ids. */
  lemma {:induction false} TopOptionsSnoc(ids: seq<string>, id: string, rs: seq<Restaurant>)
    ensures TopOptions(ids + [id], rs) ==
            TopOptions(ids, rs) + (if FindById(rs, id).Some? then [FindById(rs, id).value] else [])
  {
    if ids != [] {
      assert (ids + [id])[1..] == ids[1..] + [id];
      TopOptionsSnoc(ids[1..], id, rs);
    }
  }

  /** `counts[id] || 0` */
  function CountOf(counts: Counts, id: string): int
  {
    if Has(counts, id) then Get(counts, id) else 0
  }

  /** The bars of the chart before sorting: each venue with its round-4 count. */
  function ChartRows(top: seq<Restaurant>, counts: Counts): (rows: seq<(Restaurant, int)>)
    ensures |rows| == |top|
    ensures forall i :: 0 <= i < |top| ==> rows[i] == (top[i], CountOf(counts, top[i].id))
  {
    seq(|top|, i requires 0 <= i < |top| => (top[i], CountOf(counts, top[i].id)))
  }

  /** With the round-4 count table, each bar before sorting carries the number of ballots naming its venue. */
  lemma ChartRowsCounts(top: seq<Restaurant>, ledger: Ledger)
    ensures var rows := ChartRows(top, Counted(VoteKeys(ledger)));
            && |rows| == |top|
            && forall i :: 0 <= i < |top| ==>
                 rows[i] == (top[i], Occurrences(VoteKeys(ledger), top[i].id))
  {
    var keys := VoteKeys(ledger);
    CountedHas(keys);
    CountedGet(keys);
  }

  /** `sortedRestos`: the bars by descending count (a stable sort). */
  function Chart(top: seq<Restaurant>, counts: Counts): seq<(Restaurant, int)>
  {
    SortByCount(ChartRows(top, counts))
  }

  /**
   * The chart shows the same venues as the round-4 options, each with the
   * number of round-4 ballots naming it, by descending count, ties in the
   * order of the options.
   */
  lemma ChartSpec(top: seq<Restaurant>, ledger: Ledger)
    ensures var rows := Chart(top, Counted(VoteKeys(ledger)));
            && multiset(rows) == multiset(ChartRows(top, Counted(VoteKeys(ledger))))
            && |rows| == |top|
            && SortedDesc(rows)
            && (forall i :: 0 <= i < |rows| ==>
                  rows[i].0 in top && rows[i].1 == Occurrences(VoteKeys(ledger), rows[i].0.id))
            && (Distinct(top) ==> TiesInOrder(rows, top))
  {
    var keys := VoteKeys(ledger);
    var counts := Counted(keys);
    var pre := ChartRows(top, counts);
    var rows := Chart(top, counts);
    CountedHas(keys);
    CountedGet(keys);
    forall i | 0 <= i < |rows|
      ensures rows[i].0 in top && rows[i].1 == Occurrences(keys, rows[i].0.id)
    {
      assert rows[i] in multiset(pre);
      var j :| 0 <= j < |pre| && pre[j] == rows[i];
      if !Has(counts, top[j].id) {
        assert top[j].id !in keys;
      }
    }
    if Distinct(top) {
      assert Keys(pre) == top;
      SortStable(pre);
    }
  }

  /** `Math.max(Object.values(state.votes.round4).length, 1)` */
  function ChartDenominator(ledger: Ledger): (d: int)
    ensures d >= 1 && d >= |ledger|
    ensures ledger != [] ==> d == |ledger|
  {
    if |ledger| > 1 then |ledger| else 1
  }

  /** What the results screen shows. */
  datatype ResultsView = ResultsView(
    title: string,
    date: string,
    venue: string,
    chart: seq<(Restaurant, int)>,
    denominator: int)

  /** The date half of `renderResults`: count, sort, take the head or `TBD`. */
  method WinningDate(ledger: Ledger) returns (date: string)
    ensures date == DateWinner(ledger)
  {
    var counts := CountVotes(ledger);
    var sorted := Keys(SortByCount(counts));
    date := if |sorted| > 0 && sorted[0] != "" then sorted[0] else "TBD";
  }

  /** The venue half of `renderResults`; the counts also feed the chart. */
  method WinningVenue(ledger: Ledger, rs: seq<Restaurant>) returns (venue: Option<Restaurant>, counts: Counts)
    ensures venue == VenueWinner(ledger, rs)
    ensures counts == Counted(VoteKeys(ledger))
  {
    counts := CountVotes(ledger);
    var sorted := Keys(SortByCount(counts));
    venue := if |sorted| > 0 then FindById(rs, sorted[0]) else None;
  }

  /** `renderResults(state)`, without the markup. */
  method RenderResults(state: Snapshot) returns (res: ResultsView)
    ensures res.title == (if state.groupName == "" then DefaultGroupName else state.groupName)
    ensures res.date == DateWinner(state.votes.round2)
    ensures res.venue == VenueName(VenueWinner(state.votes.round4, state.restaurants))
    ensures res.chart == Chart(TopOptions(state.topRestaurants, state.restaurants),
                               Counted(VoteKeys(state.votes.round4)))
    ensures res.denominator == ChartDenominator(state.votes.round4)
  {
    var date := WinningDate(state.votes.round2);
    var venue, r4Counts := WinningVenue(state.votes.round4, state.restaurants);
    var title := if state.groupName == "" then DefaultGroupName else state.groupName;
    var total := if |state.votes.round4| > 1 then |state.votes.round4| else 1;
    var top := TopOptions(state.topRestaurants, state.restaurants);
    res := ResultsView(title, date, VenueName(venue), SortByCount(ChartRows(top, r4Counts)), total);
  }
}
