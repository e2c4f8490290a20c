/**
 * The viewer: the global dataset replaced on every file load, the sorted
 * team list offered for selection, and the series plotted for one team
 * (its matches in date order with the team's pre-match rating).
 */
module Viz {

  import opened Wrappers
  import opened Text
  import opened Csv
  import opened Sorting

  // ---------------------------------------------------------------------
  // Team list
  // ---------------------------------------------------------------------

  /** The row has team as its home or its away side. */
  predicate Involves(row: Record, team: string)
  {
    Get(row, "HomeTeam") == Some(team) || Get(row, "AwayTeam") == Some(team)
  }

  /** The row has no HomeTeam or no AwayTeam field, so the list gets an undefined entry. */
  predicate LacksTeam(row: Record)
  {
    "HomeTeam" !in row || "AwayTeam" !in row
  }

  /** The team names a row contributes. */
  function Sides(row: Record): set<string>
  {
    (if "HomeTeam" in row then {row["HomeTeam"]} else {}) +
    (if "AwayTeam" in row then {row["AwayTeam"]} else {})
  }

  /** Every home and away team name of the rows. */
  function TeamNames(data: seq<Record>): (names: set<string>)
    ensures forall i :: 0 <= i < |data| ==> Sides(data[i]) <= names
    decreases |data|
  {
    if data == [] then {} else TeamNames(data[..|data| - 1]) + Sides(data[|data| - 1])
  }

  /** A name is a team name exactly when some row has it as home or away side. */
  lemma {:induction false} TeamNamesMembers(data: seq<Record>, t: string)
    ensures t in TeamNames(data) <==> exists i :: 0 <= i < |data| && Involves(data[i], t)
    decreases |data|
  {
    if data != [] {
      var init := data[..|data| - 1];
      TeamNamesMembers(init, t);
      if t in TeamNames(init) {
        var i :| 0 <= i < |init| && Involves(init[i], t);
        assert data[i] == init[i];
      }
      if exists i :: 0 <= i < |data| && Involves(data[i], t) {
        var i :| 0 <= i < |data| && Involves(data[i], t);
        if i < |init| { assert init[i] == data[i]; }
      }
    }
  }

  /**
   * The names offered for selection: every home and away team once, in
   * ascending order; missing tells whether some row lacks a team field,
   * in which case one undefined entry follows the names.
   */
  method TeamList(data: seq<Record>) returns (names: seq<string>, missing: bool)
    ensures StrictlySorted(names)
    ensures forall t :: t in names <==> t in TeamNames(data)
    ensures missing <==> exists i :: 0 <= i < |data| && LacksTeam(data[i])
  {
    var teams;
    teams, missing := CollectTeams(data);
    names := [];
    var rest := teams;
    while rest != {}
      invariant rest <= teams
      invariant StrictlySorted(names)
      invariant forall t :: t in names <==> t in teams && t !in rest
      decreases |rest|
    {
      var t :| t in rest;
      names := Insert(names, t);
      rest := rest - {t};
    }
  }

  /** The set of home and away names of the rows, and whether some row lacks one. */
  method CollectTeams(data: seq<Record>) returns (teams: set<string>, missing: bool)
    ensures teams == TeamNames(data)
    ensures missing <==> exists i :: 0 <= i < |data| && LacksTeam(data[i])
  {
    teams := {};
    missing := false;
    for i := 0 to |data|
      invariant teams == TeamNames(data[..i])
      invariant missing <==> exists j :: 0 <= j < i && LacksTeam(data[j])
    {
      var row := data[i];
      assert data[..i + 1][..i] == data[..i];
      assert TeamNames(data[..i + 1]) == teams + Sides(row);
      ghost var missingBefore := missing;
      match Get(row, "HomeTeam") {
        case Some(home) => teams := teams + {home};
        case None => missing := true;
      }
      match Get(row, "AwayTeam") {
        case Some(away) => teams := teams + {away};
        case None => missing := true;
      }
      assert missing == (missingBefore || LacksTeam(row));
    }
    assert data[..|data|] == data;
  }

  /** The list is the one ascending arrangement of the team names. */
  lemma TeamListDetermined(data: seq<Record>, a: seq<string>, b: seq<string>)
    requires StrictlySorted(a) && (forall t :: t in a <==> t in TeamNames(data))
    requires StrictlySorted(b) && (forall t :: t in b <==> t in TeamNames(data))
    ensures a == b
  {
    SortedUnique(a, b);
  }

  // ---------------------------------------------------------------------
  // One team's series
  // ---------------------------------------------------------------------

  /** The rows involving team, in data order. */
  function FilterTeam(data: seq<Record>, team: string): (r: seq<Record>)
    ensures |r| <= |data|
    ensures forall x :: x in r ==> x in data && Involves(x, team)
    decreases |data|
  {
    if data == [] then []
    else if Involves(data[0], team) then [data[0]] + FilterTeam(data[1..], team)
    else FilterTeam(data[1..], team)
  }

  /** Filtering distributes over concatenation, so the kept rows stay in data order. */
  lemma {:induction false} FilterTeamAppend(a: seq<Record>, b: seq<Record>, team: string)
    ensures FilterTeam(a + b, team) == FilterTeam(a, team) + FilterTeam(b, team)
    ensures |a| == 1 ==> FilterTeam(a, team) == if Involves(a[0], team) then a else []
    decreases |a|
  {
    if a == [] {
      assert a + b == b;
    } else {
      assert (a + b)[0] == a[0] && (a + b)[1..] == a[1..] + b;
      FilterTeamAppend(a[1..], b, team);
    }
  }

  /** A row occurs in the filtered list as often as in the data when it involves team, else never. */
  lemma {:induction false} FilterTeamCount(data: seq<Record>, team: string, row: Record)
    ensures multiset(FilterTeam(data, team))[row] ==
      if Involves(row, team) then multiset(data)[row] else 0
    decreases |data|
  {
    if data != [] {
      FilterTeamCount(data[1..], team, row);
      assert data == [data[0]] + data[1..];
      assert multiset(data) == multiset{data[0]} + multiset(data[1..]);
    }
  }

  /** The column holding the team's rating before the match. */
  function RatingColumn(row: Record, team: string): (column: string)
    ensures column == "HomeTeamMMRBefore" <==> Get(row, "HomeTeam") == Some(team)
    ensures column == "AwayTeamMMRBefore" <==> Get(row, "HomeTeam") != Some(team)
  {
    if Get(row, "HomeTeam") == Some(team) then "HomeTeamMMRBefore" else "AwayTeamMMRBefore"
  }

  /** The sort key of a row: the date key of its Date field. */
  function DateOf(dateKey: Option<string> -> int): Record -> int
  {
    (r: Record) => dateKey(Get(r, "Date"))
  }

  /** The rows are in ascending order of the date key of their Date field. */
  predicate DateSorted(rows: seq<Record>, dateKey: Option<string> -> int)
  {
    forall i, j :: 0 <= i < j < |rows| ==> dateKey(Get(rows[i], "Date")) <= dateKey(Get(rows[j], "Date"))
  }

  /**
   * rows are the rows of data involving team, each as often, sorted by
   * date, with rows of equal date in their data order.
   */
  ghost predicate TeamSeries(rows: seq<Record>, data: seq<Record>, team: string,
                             dateKey: Option<string> -> int)
  {
    multiset(rows) == multiset(FilterTeam(data, team)) &&
    DateSorted(rows, dateKey) &&
    SameKeyOrder(rows, FilterTeam(data, team), DateOf(dateKey))
  }

  /** The series of a team is determined: the stable date order leaves no choice. */
  lemma TeamSeriesUnique(r1: seq<Record>, r2: seq<Record>, data: seq<Record>, team: string,
                         dateKey: Option<string> -> int)
    requires TeamSeries(r1, data, team, dateKey) && TeamSeries(r2, data, team, dateKey)
    ensures r1 == r2
  {
    var key := DateOf(dateKey);
    assert SortedBy(r1, key) && SortedBy(r2, key);
    forall k ensures WithKey(r1, key, k) == WithKey(r2, key, k) {
      assert WithKey(r1, key, k) == WithKey(FilterTeam(data, team), key, k);
    }
    StableSortUnique(r1, r2, key);
  }

  /** The points of the series: each row's Date field, and the team's pre-match rating in it. */
  ghost predicate Points<N>(rows: seq<Record>, team: string, parseFloat: Option<string> -> N,
                            dates: seq<Option<string>>, ratings: seq<N>)
  {
    |dates| == |rows| && |ratings| == |rows| &&
    (forall i :: 0 <= i < |rows| ==> dates[i] == Get(rows[i], "Date")) &&
    (forall i :: 0 <= i < |rows| ==> ratings[i] == parseFloat(Get(rows[i], RatingColumn(rows[i], team))))
  }

  /**
   * The series for one team: its rows sorted by date, their dates, and the
   * team's pre-match rating in each, read from the home or the away column
   * by the side the team played on.
   */
  method PlotTeamMMR<N>(data: seq<Record>, team: string, dateKey: Option<string> -> int,
                        parseFloat: Option<string> -> N)
    returns (rows: seq<Record>, dates: seq<Option<string>>, ratings: seq<N>)
    ensures TeamSeries(rows, data, team, dateKey)
    ensures forall r :: r in rows ==> r in data && Involves(r, team)
    ensures Points(rows, team, parseFloat, dates, ratings)
  {
    var filtered := FilterTeam(data, team);
    rows := SortSeq(filtered, DateOf(dateKey));
    forall r | r in rows ensures r in data && Involves(r, team) {
      assert multiset(rows)[r] > 0;
      FilterTeamCount(data, team, r);
    }
    dates := seq(|rows|, i requires 0 <= i < |rows| => Get(rows[i], "Date"));
    ratings := seq(|rows|, i requires 0 <= i < |rows| =>
      if Get(rows[i], "HomeTeam") == Some(team) then parseFloat(Get(rows[i], "HomeTeamMMRBefore"))
      else parseFloat(Get(rows[i], "AwayTeamMMRBefore")));
  }

  // ---------------------------------------------------------------------
  // The page state
  // ---------------------------------------------------------------------

  /** A plotted line: dates on x, ratings on y, named after the team. */
  datatype Trace<N> = Trace(x: seq<Option<string>>, y: seq<N>, name: string, title: string)

  /** The loaded dataset and the team list shown for selection. */
  class Viewer {
    var allData: seq<Record>
    var teamOptions: seq<string>
    var undefinedOption: bool

    constructor ()
      ensures allData == [] && teamOptions == [] && !undefinedOption
    {
      allData := [];
      teamOptions := [];
      undefinedOption := false;
    }

    /**
     * A file's text has been read: parse it and rebuild the team list.
     * When parsing fails the exception leaves the dataset and list as they were.
     */
    method OnFileLoaded(text: string) returns (ok: bool)
      modifies this
      ensures ok <==> ParseCSV(text).Success?
      ensures ok ==> allData == ParseCSV(text).value
      ensures ok ==> StrictlySorted(teamOptions) && forall t :: t in teamOptions <==> t in TeamNames(allData)
      ensures ok ==> (undefinedOption <==> exists i :: 0 <= i < |allData| && LacksTeam(allData[i]))
      ensures !ok ==> allData == old(allData) && teamOptions == old(teamOptions)
                      && undefinedOption == old(undefinedOption)
    {
      var parsed := ParseCSV(text);
      if parsed.Failure? {
        return false;
      }
      allData := parsed.value;
      teamOptions, undefinedOption := TeamList(allData);
      ok := true;
    }

    /** A team has been picked: plot it, unless the placeholder (empty value) was picked. */
    method OnTeamSelected<N>(team: string, dateKey: Option<string> -> int, parseFloat: Option<string> -> N)
      returns (trace: Option<Trace<N>>)
      ensures team == "" <==> trace.None?
      ensures trace.Some? ==> trace.value.name == team && trace.value.title == team + " MMR Over Time"
      ensures trace.Some? ==> |trace.value.x| == |trace.value.y| == |FilterTeam(allData, team)|
      ensures trace.Some? ==> exists rows :: TeamSeries(rows, allData, team, dateKey) &&
                                Points(rows, team, parseFloat, trace.value.x, trace.value.y)
    {
      if team == "" {
        return None;
      }
      var rows, dates, ratings := PlotTeamMMR(allData, team, dateKey, parseFloat);
      assert |rows| == |multiset(rows)| == |multiset(FilterTeam(allData, team))|;
      trace := Some(Trace(dates, ratings, team, team + " MMR Over Time"));
    }
  }
}
