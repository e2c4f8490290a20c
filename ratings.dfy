/**
 * The rating engine: per-team state, the preseason adjustment applied when
 * a team appears in a new season, the zero-sum per-match update, and the
 * whole pass over a table of matches in date order that produces one log
 * row per match.
 */
module Ratings {

  import opened Wrappers
  import opened Text
  import opened Tiers
  import opened Sorting

  /** What the engine remembers about a team between matches. */
  datatype TeamState = TeamState(mmr: real, lastSeason: int, lastTier: int)

  /** The tuning parameters of a run. */
  datatype Config = Config(k: real, homeAdv: real, seasonBlend: real,
                           promotionBonus: real, relegationNerf: real)

  /** The parameters used when the caller gives none. */
  const Defaults: Config := Config(40.0, 60.0, 0.5, 75.0, 75.0)

  /**
   * The two floating-point formulas of the update, kept abstract: the
   * Elo expected score of the home side from (home rating, away rating,
   * home advantage), and the goal-difference factor of a decided match
   * from (home rating, away rating, absolute goal difference).
   */
  datatype Formulas = Formulas(expected: (real, real, real) -> real,
                               scaled: (real, real, nat) -> real)

  /** An input row after date parsing: a date that did not parse is None. */
  datatype InputRow = InputRow(date: Option<Date>, div: string, homeTeam: string,
                               awayTeam: string, fthg: Option<real>, ftag: Option<real>)

  /** The input table: its column names and its rows. */
  datatype Frame = Frame(columns: seq<string>, rows: seq<InputRow>)

  /** A match as the update loop reads it. */
  datatype Match = Match(date: Date, div: string, home: string, away: string, fthg: int, ftag: int)

  /** One row of the output log. */
  datatype LogRow = LogRow(
    date: Date, div: string, homeTeam: string, awayTeam: string, fthg: int, ftag: int,
    homeBefore: real, awayBefore: real, homeAfter: real, awayAfter: real,
    deltaHome: real, deltaAway: real, expectedHome: real, expectedAway: real,
    kUsed: real, goalDiff: int)

  datatype MmrError = MissingColumn(column: string) | NoValidDates

  const RequiredColumns: seq<string> := ["Date", "Div", "HomeTeam", "AwayTeam", "FTHG", "FTAG"]

  /** The team table and the log written so far. */
  datatype Ledger = Ledger(teams: map<string, TeamState>, rows: seq<LogRow>)

  // ---------------------------------------------------------------------
  // Preseason adjustment
  // ---------------------------------------------------------------------

  /** A rating moved the fraction blend of the way toward base. */
  function Blend(mmr: real, base: real, blend: real): (r: real)
    ensures blend == 0.0 ==> r == mmr
    ensures blend == 1.0 ==> r == base
    ensures r - mmr == blend * (base - mmr)
  {
    (1.0 - blend) * mmr + blend * base
  }

  /** +1 when the base is at or above the rating, -1 when it is below. */
  function Direction(base: real, mmr: real): (d: real)
    ensures d == 1.0 <==> base >= mmr
    ensures d == -1.0 <==> base < mmr
  {
    if base - mmr >= 0.0 then 1.0 else -1.0
  }

  /**
   * The state of a team about to play in division div during season, given
   * its previous state (None for a team not seen before).
   */
  function AdjustedState(prev: Option<TeamState>, div: string, season: int, cfg: Config): (st: TeamState)
    ensures st.lastSeason == season && st.lastTier == GetTierFromDiv(div)
    ensures prev.None? ==> st.mmr == BaseForDiv(div)
    ensures prev.Some? && prev.value.lastSeason == season ==> st.mmr == prev.value.mmr
  {
    var base := BaseForDiv(div);
    var tier := GetTierFromDiv(div);
    match prev
    case None => TeamState(base, season, tier)
    case Some(st) =>
      if st.lastSeason != season then
        var blended := Blend(st.mmr, base, cfg.seasonBlend);
        var mmr :=
          if tier == st.lastTier then blended
          else if tier < st.lastTier then blended + Direction(base, blended) * cfg.promotionBonus
          else blended - Direction(base, blended) * cfg.relegationNerf;
        TeamState(mmr, season, tier)
      else
        st.(lastTier := tier)
  }

  /** The team table after the preseason adjustment of one team. */
  function Adjust(teams: map<string, TeamState>, team: string, div: string, season: int,
                  cfg: Config): (r: map<string, TeamState>)
    ensures r.Keys == teams.Keys + {team}
    ensures forall t :: t in teams && t != team ==> r[t] == teams[t]
  {
    teams[team := AdjustedState(Get(teams, team), div, season, cfg)]
  }

  /** A team seen for the first time starts at its division's base, in this season and tier. */
  lemma NewTeamStartsAtBase(teams: map<string, TeamState>, team: string, div: string,
                            season: int, cfg: Config)
    requires team !in teams
    ensures Adjust(teams, team, div, season, cfg)[team]
         == TeamState(BaseForDiv(div), season, GetTierFromDiv(div))
  {
  }

  /** Within a season only the tier is refreshed; rating and season are kept. */
  lemma SameSeasonKeepsRating(teams: map<string, TeamState>, team: string, div: string,
                              season: int, cfg: Config)
    requires team in teams && teams[team].lastSeason == season
    ensures var st := Adjust(teams, team, div, season, cfg)[team];
      st.mmr == teams[team].mmr && st.lastSeason == season && st.lastTier == GetTierFromDiv(div)
  {
  }

  /**
   * At a season change the rating is blended toward the division base,
   * then moved by exactly the promotion bonus toward that base after a
   * promotion, or by exactly the relegation penalty away from it after a
   * relegation; season and tier are then recorded.
   */
  lemma SeasonChange(teams: map<string, TeamState>, team: string, div: string,
                     season: int, cfg: Config)
    requires team in teams && teams[team].lastSeason != season
    ensures var old_, st := teams[team], Adjust(teams, team, div, season, cfg)[team];
      var base, tier := BaseForDiv(div), GetTierFromDiv(div);
      var blended := Blend(old_.mmr, base, cfg.seasonBlend);
      && st.lastSeason == season && st.lastTier == tier
      && (tier == old_.lastTier ==> st.mmr == blended)
      && (tier < old_.lastTier ==>
            st.mmr == (if base >= blended then blended + cfg.promotionBonus
                       else blended - cfg.promotionBonus))
      && (tier > old_.lastTier ==>
            st.mmr == (if base >= blended then blended - cfg.relegationNerf
                       else blended + cfg.relegationNerf))
  {
    var old_ := teams[team];
    var base := BaseForDiv(div);
    var blended := Blend(old_.mmr, base, cfg.seasonBlend);
    if base - blended >= 0.0 {
      assert Direction(base, blended) == 1.0;
    } else {
      assert Direction(base, blended) == -1.0;
    }
  }

  /**
   * With the default parameters, a team rated 1600 in tier 1 that moves to
   * E1 (tier 2, base 1500) in a new season is blended to 1550 and, being
   * above the new base, moved 75 further away from it: it ends at 1625.
   */
  lemma RelegationAboveBaseRaises()
    ensures var teams := map["Leeds" := TeamState(1600.0, 2020, 1)];
      Adjust(teams, "Leeds", "E1", 2021, Defaults)["Leeds"] == TeamState(1625.0, 2021, 2)
  {
    assert "E1" in DivTierMap && DivTierMap["E1"] == 2;
    assert BaseForDiv("E1") == 1500.0;
    assert Blend(1600.0, 1500.0, 0.5) == 1550.0;
    assert Direction(1500.0, 1550.0) == -1.0;
  }

  /** With a blend weight between 0 and 1 the blended rating lies between the old rating and the base. */
  lemma BlendBetween(mmr: real, base: real, blend: real)
    requires 0.0 <= blend <= 1.0
    ensures mmr <= base ==> mmr <= Blend(mmr, base, blend) <= base
    ensures base <= mmr ==> base <= Blend(mmr, base, blend) <= mmr
  {
    var d := base - mmr;
    assert Blend(mmr, base, blend) == mmr + blend * d;
    assert d - blend * d == (1.0 - blend) * d;
    if d >= 0.0 {
      ProductNonNegative(blend, d);
      ProductNonNegative(1.0 - blend, d);
    } else {
      ProductNonNegative(blend, -d);
      ProductNonNegative(1.0 - blend, -d);
    }
  }

  lemma ProductNonNegative(x: real, y: real)
    requires x >= 0.0 && y >= 0.0
    ensures x * y >= 0.0
  {
  }

  // ---------------------------------------------------------------------
  // One match
  // ---------------------------------------------------------------------

  /** The home side's rating change; the away side's is its negation. */
  function HomeDelta(homeBefore: real, awayBefore: real, fthg: int, ftag: int,
                     cfg: Config, f: Formulas): (delta: real)
    ensures fthg == ftag ==> delta == cfg.k * (0.5 - f.expected(homeBefore, awayBefore, cfg.homeAdv))
  {
    var goalDiff := fthg - ftag;
    var gdAbs: nat := if goalDiff >= 0 then goalDiff else -goalDiff;
    var expHome := f.expected(homeBefore, awayBefore, cfg.homeAdv);
    var factor := GoalDiffFactor(homeBefore, awayBefore, gdAbs, f.scaled);
    cfg.k * factor * (ActualScore(goalDiff) - expHome)
  }

  /** The ledger after one match: both teams adjusted, then the update applied and logged. */
  function Step(l: Ledger, m: Match, cfg: Config, f: Formulas): (l': Ledger)
    ensures m.home in l'.teams && m.away in l'.teams
    ensures |l'.rows| == |l.rows| + 1
  {
    var season := SeasonKey(m.date);
    var adjusted := Adjust(Adjust(l.teams, m.home, m.div, season, cfg), m.away, m.div, season, cfg);
    Settle(adjusted, l.rows, m, cfg, f)
  }

  /** The zero-sum update of a match between two adjusted teams, and its log row. */
  function Settle(teams: map<string, TeamState>, rows: seq<LogRow>, m: Match,
                  cfg: Config, f: Formulas): (l': Ledger)
    requires m.home in teams && m.away in teams
    ensures l'.teams.Keys == teams.Keys
    ensures |l'.rows| == |rows| + 1 && l'.rows[..|rows|] == rows
    ensures var row := l'.rows[|rows|];
      && row.homeBefore == teams[m.home].mmr && row.awayBefore == teams[m.away].mmr
      && row.homeAfter == row.homeBefore + row.deltaHome
      && row.awayAfter == row.awayBefore + row.deltaAway
    ensures forall t :: t in teams && t != m.home && t != m.away ==> l'.teams[t] == teams[t]
    ensures l'.teams[m.away] == teams[m.away].(mmr := l'.rows[|rows|].awayAfter)
    ensures m.home != m.away ==> l'.teams[m.home] == teams[m.home].(mmr := l'.rows[|rows|].homeAfter)
  {
    var homeBefore := teams[m.home].mmr;
    var awayBefore := teams[m.away].mmr;
    var expHome := f.expected(homeBefore, awayBefore, cfg.homeAdv);
    var deltaHome := HomeDelta(homeBefore, awayBefore, m.fthg, m.ftag, cfg, f);
    var homeAfter := homeBefore + deltaHome;
    var awayAfter := awayBefore + -deltaHome;
    var t := teams[m.home := teams[m.home].(mmr := homeAfter)];
    var row := LogRow(m.date, m.div, m.home, m.away, m.fthg, m.ftag,
                      homeBefore, awayBefore, homeAfter, awayAfter, deltaHome, -deltaHome,
                      expHome, 1.0 - expHome, cfg.k, m.fthg - m.ftag);
    Ledger(t[m.away := t[m.away].(mmr := awayAfter)], rows + [row])
  }

  /** The log row a match appends. */
  function LastRow(l: Ledger): LogRow
    requires |l.rows| > 0
  {
    l.rows[|l.rows| - 1]
  }

  /**
   * A match is zero-sum: the away delta is the negated home delta, the two
   * ratings after add up to the two before, and when the sides differ the
   * table holds exactly the logged ratings after.
   */
  lemma StepZeroSum(l: Ledger, m: Match, cfg: Config, f: Formulas)
    ensures var l' := Step(l, m, cfg, f);
      var row := LastRow(l');
      && row.deltaAway == -row.deltaHome
      && row.homeAfter + row.awayAfter == row.homeBefore + row.awayBefore
      && m.away in l'.teams && l'.teams[m.away].mmr == row.awayAfter
      && (m.home != m.away ==>
            m.home in l'.teams && l'.teams[m.home].mmr == row.homeAfter)
  {
  }

  /**
   * A log row scores the match: 1, one half or 0 by the sign of the goal
   * difference, times k and the goal-difference factor, less the expected
   * score; a draw has factor 1.
   */
  predicate Scored(row: LogRow, m: Match, cfg: Config, f: Formulas)
  {
    && row.expectedHome == f.expected(row.homeBefore, row.awayBefore, cfg.homeAdv)
    && row.kUsed == cfg.k
    && row.goalDiff == m.fthg - m.ftag
    && row.expectedHome + row.expectedAway == 1.0
    && (m.fthg == m.ftag ==> row.deltaHome == cfg.k * (0.5 - row.expectedHome))
    && (m.fthg > m.ftag ==>
          row.deltaHome == cfg.k * GoalDiffFactor(row.homeBefore, row.awayBefore, m.fthg - m.ftag, f.scaled)
                                 * (1.0 - row.expectedHome))
    && (m.fthg < m.ftag ==>
          row.deltaHome == cfg.k * GoalDiffFactor(row.homeBefore, row.awayBefore, m.ftag - m.fthg, f.scaled)
                                 * (0.0 - row.expectedHome))
  }

  /**
   * The ratings a step logs: before the update they are the two teams'
   * preseason-adjusted ratings, and after it each is its rating before
   * plus its delta.
   */
  lemma StepRatings(l: Ledger, m: Match, cfg: Config, f: Formulas)
    ensures var season := SeasonKey(m.date);
      var adjusted := Adjust(Adjust(l.teams, m.home, m.div, season, cfg), m.away, m.div, season, cfg);
      var row := LastRow(Step(l, m, cfg, f));
      && m.home in adjusted && m.away in adjusted
      && row.homeBefore == adjusted[m.home].mmr && row.awayBefore == adjusted[m.away].mmr
      && row.homeAfter == row.homeBefore + row.deltaHome
      && row.awayAfter == row.awayBefore + row.deltaAway
  {
    var season := SeasonKey(m.date);
    var adjusted := Adjust(Adjust(l.teams, m.home, m.div, season, cfg), m.away, m.div, season, cfg);
    assert Step(l, m, cfg, f) == Settle(adjusted, l.rows, m, cfg, f);
  }

  /**
   * After a step both sides carry the season of the match date and the tier
   * of its division: the update writes back only the ratings.
   */
  lemma StepSidesState(l: Ledger, m: Match, cfg: Config, f: Formulas)
    ensures var l' := Step(l, m, cfg, f);
      && l'.teams[m.home].lastSeason == SeasonKey(m.date)
      && l'.teams[m.home].lastTier == GetTierFromDiv(m.div)
      && l'.teams[m.away].lastSeason == SeasonKey(m.date)
      && l'.teams[m.away].lastTier == GetTierFromDiv(m.div)
  {
    var season := SeasonKey(m.date);
    var adjusted := Adjust(Adjust(l.teams, m.home, m.div, season, cfg), m.away, m.div, season, cfg);
    assert Step(l, m, cfg, f) == Settle(adjusted, l.rows, m, cfg, f);
  }

  /** The row a step logs scores its match. */
  lemma StepOutcome(l: Ledger, m: Match, cfg: Config, f: Formulas)
    ensures Scored(LastRow(Step(l, m, cfg, f)), m, cfg, f)
  {
    var season := SeasonKey(m.date);
    var adjusted := Adjust(Adjust(l.teams, m.home, m.div, season, cfg), m.away, m.div, season, cfg);
    assert Step(l, m, cfg, f) == Settle(adjusted, l.rows, m, cfg, f);
    SettleOutcome(adjusted, l.rows, m, cfg, f);
  }

  /** The log row of a settled match, as in StepOutcome. */
  lemma SettleOutcome(teams: map<string, TeamState>, rows: seq<LogRow>, m: Match,
                        cfg: Config, f: Formulas)
    requires m.home in teams && m.away in teams
    ensures Scored(LastRow(Settle(teams, rows, m, cfg, f)), m, cfg, f)
  {
    var homeBefore := teams[m.home].mmr;
    var awayBefore := teams[m.away].mmr;
    var goalDiff := m.fthg - m.ftag;
    var gdAbs: nat := if goalDiff >= 0 then goalDiff else -goalDiff;
    assert LastRow(Settle(teams, rows, m, cfg, f)).deltaHome
        == HomeDelta(homeBefore, awayBefore, m.fthg, m.ftag, cfg, f);
  }

  /**
   * With an expected score in [0, 1], a non-negative k and a non-negative
   * goal-difference factor, the winner never loses rating and the loser
   * never gains.
   */
  lemma WinnerGains(homeBefore: real, awayBefore: real, fthg: int, ftag: int, cfg: Config, f: Formulas)
    requires 0.0 <= f.expected(homeBefore, awayBefore, cfg.homeAdv) <= 1.0
    requires cfg.k >= 0.0
    requires forall n: nat :: n > 0 ==> f.scaled(homeBefore, awayBefore, n) >= 0.0
    ensures fthg > ftag ==> HomeDelta(homeBefore, awayBefore, fthg, ftag, cfg, f) >= 0.0
    ensures fthg < ftag ==> HomeDelta(homeBefore, awayBefore, fthg, ftag, cfg, f) <= 0.0
  {
    var goalDiff := fthg - ftag;
    var gdAbs: nat := if goalDiff >= 0 then goalDiff else -goalDiff;
    var expHome := f.expected(homeBefore, awayBefore, cfg.homeAdv);
    var factor := GoalDiffFactor(homeBefore, awayBefore, gdAbs, f.scaled);
    assert factor >= 0.0;
    var kf := cfg.k * factor;
    assert kf >= 0.0;
    if fthg > ftag {
      assert ActualScore(goalDiff) - expHome >= 0.0;
      assert kf * (ActualScore(goalDiff) - expHome) >= 0.0;
    } else if fthg < ftag {
      assert ActualScore(goalDiff) - expHome <= 0.0;
      assert kf * (ActualScore(goalDiff) - expHome) <= 0.0;
    }
  }

  /** The log row names the match's date, division, teams and goals. */
  predicate Logged(row: LogRow, m: Match)
  {
    row.date == m.date && row.div == m.div && row.homeTeam == m.home && row.awayTeam == m.away &&
    row.fthg == m.fthg && row.ftag == m.ftag
  }

  /** A match appends one log row naming its date, division, teams and goals. */
  lemma StepLogsMatch(l: Ledger, m: Match, cfg: Config, f: Formulas)
    ensures var l' := Step(l, m, cfg, f);
      l'.rows == l.rows + [LastRow(l')] && Logged(LastRow(l'), m)
  {
  }

  /** After a match the table holds the teams it held before and the two sides. */
  lemma StepKeys(l: Ledger, m: Match, cfg: Config, f: Formulas)
    ensures Step(l, m, cfg, f).teams.Keys == l.teams.Keys + {m.home, m.away}
  {
  }

  /** A match touches only its two teams, and both are in the table afterwards. */
  lemma StepFrame(l: Ledger, m: Match, cfg: Config, f: Formulas)
    ensures var l' := Step(l, m, cfg, f);
      && l'.teams.Keys == l.teams.Keys + {m.home, m.away}
      && (forall t :: t in l.teams && t != m.home && t != m.away ==> l'.teams[t] == l.teams[t])
      && l'.rows[..|l.rows|] == l.rows
  {
  }

  // ---------------------------------------------------------------------
  // A whole run
  // ---------------------------------------------------------------------

  /** The ledger after the matches ms, in order. */
  function Run(l: Ledger, ms: seq<Match>, cfg: Config, f: Formulas): (l': Ledger)
    ensures |l'.rows| == |l.rows| + |ms|
    decreases |ms|
  {
    if ms == [] then l
    else Step(Run(l, ms[..|ms| - 1], cfg, f), ms[|ms| - 1], cfg, f)
  }

  /** Running one more match is one more step. */
  lemma RunSnoc(l: Ledger, ms: seq<Match>, i: nat, cfg: Config, f: Formulas)
    requires i < |ms|
    ensures Run(l, ms[..i + 1], cfg, f) == Step(Run(l, ms[..i], cfg, f), ms[i], cfg, f)
  {
    assert ms[..i + 1][..i] == ms[..i];
  }

  /** A run keeps the log rows already written. */
  lemma {:induction false} RunKeepsRows(l: Ledger, ms: seq<Match>, cfg: Config, f: Formulas)
    ensures Run(l, ms, cfg, f).rows[..|l.rows|] == l.rows
    decreases |ms|
  {
    if ms != [] {
      var init := ms[..|ms| - 1];
      var before := Run(l, init, cfg, f);
      RunKeepsRows(l, init, cfg, f);
      StepLogsMatch(before, ms[|ms| - 1], cfg, f);
      assert Run(l, ms, cfg, f).rows[..|l.rows|] == before.rows[..|l.rows|];
    }
  }

  /**
   * A run appends exactly one log row per match, in match order, each
   * naming the match's date, division, teams and goals.
   */
  lemma {:induction false} RunLog(l: Ledger, ms: seq<Match>, cfg: Config, f: Formulas)
    ensures var rows := Run(l, ms, cfg, f).rows;
      && |rows| == |l.rows| + |ms|
      && forall i :: 0 <= i < |ms| ==> Logged(rows[|l.rows| + i], ms[i])
    decreases |ms|
  {
    if ms != [] {
      var init := ms[..|ms| - 1];
      var before := Run(l, init, cfg, f);
      var after := Run(l, ms, cfg, f);
      RunLog(l, init, cfg, f);
      StepLogsMatch(before, ms[|ms| - 1], cfg, f);
      forall i | 0 <= i < |ms| - 1 ensures Logged(after.rows[|l.rows| + i], ms[i]) {
        assert after.rows[|l.rows| + i] == before.rows[|l.rows| + i];
        assert ms[i] == init[i];
      }
    }
  }

  /** The teams named by the matches ms. */
  function MatchTeams(ms: seq<Match>): set<string>
    decreases |ms|
  {
    if ms == [] then {}
    else MatchTeams(ms[..|ms| - 1]) + {ms[|ms| - 1].home, ms[|ms| - 1].away}
  }

  /** A team is named by ms exactly when some match has it as home or away side. */
  lemma {:induction false} MatchTeamsMembers(ms: seq<Match>, t: string)
    ensures t in MatchTeams(ms) <==> exists i :: 0 <= i < |ms| && (ms[i].home == t || ms[i].away == t)
    decreases |ms|
  {
    if ms != [] {
      var init := ms[..|ms| - 1];
      MatchTeamsMembers(init, t);
      if t in MatchTeams(init) {
        var i :| 0 <= i < |init| && (init[i].home == t || init[i].away == t);
        assert ms[i] == init[i];
      }
      if exists i :: 0 <= i < |ms| && (ms[i].home == t || ms[i].away == t) {
        var i :| 0 <= i < |ms| && (ms[i].home == t || ms[i].away == t);
        if i < |init| { assert init[i] == ms[i]; }
      }
    }
  }

  /** After a run the table holds the teams it started with and every team a match named, and no other. */
  lemma {:induction false} RunTeams(l: Ledger, ms: seq<Match>, cfg: Config, f: Formulas)
    ensures Run(l, ms, cfg, f).teams.Keys == l.teams.Keys + MatchTeams(ms)
    decreases |ms|
  {
    if ms != [] {
      var init := ms[..|ms| - 1];
      RunTeams(l, init, cfg, f);
      StepKeys(Run(l, init, cfg, f), ms[|ms| - 1], cfg, f);
    }
  }

  // ---------------------------------------------------------------------
  // Reading the table
  // ---------------------------------------------------------------------

  /** The first required column that the table lacks, if any. */
  function FirstMissing(required: seq<string>, columns: seq<string>): (r: Option<string>)
    ensures r.None? <==> forall c :: c in required ==> c in columns
    ensures r.Some? ==> r.value in required && r.value !in columns
  {
    if required == [] then None
    else if required[0] !in columns then Some(required[0])
    else FirstMissing(required[1..], columns)
  }

  /** Columns are checked in order: the first absent one is reported. */
  lemma {:induction false} FirstMissingAt(required: seq<string>, columns: seq<string>, i: nat)
    requires i < |required| && required[i] !in columns
    requires forall j :: 0 <= j < i ==> required[j] in columns
    ensures FirstMissing(required, columns) == Some(required[i])
  {
    if i > 0 {
      FirstMissingAt(required[1..], columns, i - 1);
    }
  }

  /** The match a row with a parsed date stands for: names stripped, goals read as integers. */
  function ToMatch(row: InputRow): (m: Match)
    requires row.date.Some?
    ensures m.date == row.date.value
    ensures m.div == PyStrip(row.div) && m.home == PyStrip(row.homeTeam) && m.away == PyStrip(row.awayTeam)
    ensures Trimmed(m.div, IsPySpace) && Trimmed(m.home, IsPySpace) && Trimmed(m.away, IsPySpace)
    ensures m.fthg == Goals(row.fthg) && m.ftag == Goals(row.ftag)
    ensures row.fthg.None? ==> m.fthg == 0
    ensures row.ftag.None? ==> m.ftag == 0
  {
    Match(row.date.value, PyStrip(row.div), PyStrip(row.homeTeam), PyStrip(row.awayTeam),
          Goals(row.fthg), Goals(row.ftag))
  }

  /** The rows whose date parsed, as matches, in table order. */
  function Survivors(rows: seq<InputRow>): (ms: seq<Match>)
    ensures |ms| <= |rows|
    ensures ms == [] <==> forall i :: 0 <= i < |rows| ==> rows[i].date.None?
    decreases |rows|
  {
    if rows == [] then []
    else
      var rest := Survivors(rows[1..]);
      assert forall i :: 1 <= i < |rows| ==> rows[i] == rows[1..][i - 1];
      if rows[0].date.Some? then [ToMatch(rows[0])] + rest else rest
  }

  /**
   * Dropping rows keeps the table's order: the survivors of a concatenation
   * are the concatenated survivors, and a single row survives as its match
   * exactly when its date parsed.
   */
  lemma {:induction false} SurvivorsAppend(a: seq<InputRow>, b: seq<InputRow>)
    ensures Survivors(a + b) == Survivors(a) + Survivors(b)
    ensures |a| == 1 ==> Survivors(a) == if a[0].date.Some? then [ToMatch(a[0])] else []
    decreases |a|
  {
    if a != [] {
      assert (a + b)[0] == a[0] && (a + b)[1..] == a[1..] + b;
      SurvivorsAppend(a[1..], b);
      if |a| == 1 {
        assert a[1..] == [];
      }
    } else {
      assert a + b == b;
    }
  }

  /** The day a match was played on, as a sort key. */
  function MatchDay(m: Match): int
  {
    DayNumber(m.date)
  }

  /** ms holds the matches of survivors, each as often, arranged by date. */
  predicate Chronological(ms: seq<Match>, survivors: seq<Match>)
  {
    multiset(ms) == multiset(survivors) && SortedBy(ms, MatchDay)
  }

  /** Along matches arranged by date, season keys never go back. */
  lemma ChronologicalSeasons(ms: seq<Match>, i: nat, j: nat)
    requires SortedBy(ms, MatchDay)
    requires forall k :: 0 <= k < |ms| ==> ValidDate(ms[k].date)
    requires i <= j < |ms|
    ensures SeasonKey(ms[i].date) <= SeasonKey(ms[j].date)
  {
    if i < j {
      DayNumberOrder(ms[i].date, ms[j].date);
      SeasonKeyMonotone(ms[i].date, ms[j].date);
    }
  }

  // ---------------------------------------------------------------------
  // The engine's state
  // ---------------------------------------------------------------------

  /** The mutable state of one run: the team table and the log. */
  class Rater {
    const cfg: Config
    const formulas: Formulas
    var teams: map<string, TeamState>
    var rows: seq<LogRow>

    constructor (cfg: Config, formulas: Formulas)
      ensures this.cfg == cfg && this.formulas == formulas
      ensures teams == map[] && rows == []
    {
      this.cfg := cfg;
      this.formulas := formulas;
      teams := map[];
      rows := [];
    }

    /** The table and log as a value. */
    function State(): Ledger
      reads this
    {
      Ledger(teams, rows)
    }

    /** Initialises a new team, or blends and nudges at a season change, or refreshes the tier. */
    method PreseasonAdjust(team: string, div: string, season: int)
      modifies this`teams
      ensures teams == Adjust(old(teams), team, div, season, cfg)
    {
      var base := BaseForDiv(div);
      var tier := GetTierFromDiv(div);
      if team !in teams {
        teams := teams[team := TeamState(base, season, tier)];
        return;
      }
      var st := teams[team];
      if st.lastSeason != season {
        st := st.(mmr := Blend(st.mmr, base, cfg.seasonBlend));
        if tier != st.lastTier {
          if tier < st.lastTier {
            st := st.(mmr := st.mmr + Direction(base, st.mmr) * cfg.promotionBonus);
          } else {
            st := st.(mmr := st.mmr - Direction(base, st.mmr) * cfg.relegationNerf);
          }
        }
        st := st.(lastSeason := season, lastTier := tier);
      } else {
        st := st.(lastTier := tier);
      }
      assert st == AdjustedState(Some(teams[team]), div, season, cfg);
      teams := teams[team := st];
    }

    /** Plays one match: both preseason checks, the zero-sum update, one log row. */
    method ApplyMatch(m: Match)
      modifies this
      ensures teams == Step(old(State()), m, cfg, formulas).teams
      ensures rows == Step(old(State()), m, cfg, formulas).rows
    {
      var season := SeasonKey(m.date);
      PreseasonAdjust(m.home, m.div, season);
      PreseasonAdjust(m.away, m.div, season);
      UpdateRatings(m);
    }

    /** The zero-sum update of two adjusted teams and the log row it appends. */
    method UpdateRatings(m: Match)
      requires m.home in teams && m.away in teams
      modifies this
      ensures teams == Settle(old(teams), old(rows), m, cfg, formulas).teams
      ensures rows == Settle(old(teams), old(rows), m, cfg, formulas).rows
    {
      var homeBefore := teams[m.home].mmr;
      var awayBefore := teams[m.away].mmr;
      var goalDiff := m.fthg - m.ftag;
      var gdAbs: nat := if goalDiff >= 0 then goalDiff else -goalDiff;
      var expHome := formulas.expected(homeBefore, awayBefore, cfg.homeAdv);
      var expAway := 1.0 - expHome;
      var actualHome;
      if goalDiff > 0 {
        actualHome := 1.0;
      } else if goalDiff == 0 {
        actualHome := 0.5;
      } else {
        actualHome := 0.0;
      }
      var gdf := GoalDiffFactor(homeBefore, awayBefore, gdAbs, formulas.scaled);
      var deltaHome := cfg.k * gdf * (actualHome - expHome);
      assert deltaHome == HomeDelta(homeBefore, awayBefore, m.fthg, m.ftag, cfg, formulas);
      var deltaAway := -deltaHome;
      var homeAfter := homeBefore + deltaHome;
      var awayAfter := awayBefore + deltaAway;
      teams := teams[m.home := teams[m.home].(mmr := homeAfter)];
      teams := teams[m.away := teams[m.away].(mmr := awayAfter)];
      rows := rows + [LogRow(m.date, m.div, m.home, m.away, m.fthg, m.ftag,
                             homeBefore, awayBefore, homeAfter, awayAfter, deltaHome, deltaAway,
                             expHome, expAway, cfg.k, goalDiff)];
    }
  }

  /** Checks the required columns in order and reports the first one the table lacks. */
  method CheckColumns(columns: seq<string>) returns (missing: Option<string>)
    ensures missing == FirstMissing(RequiredColumns, columns)
  {
    for i := 0 to |RequiredColumns|
      invariant forall j :: 0 <= j < i ==> RequiredColumns[j] in columns
    {
      if RequiredColumns[i] !in columns {
        FirstMissingAt(RequiredColumns, columns, i);
        return Some(RequiredColumns[i]);
      }
    }
    return None;
  }

  /**
   * Checks the required columns, drops rows whose date did not parse, and
   * plays the remaining matches in order, returning the log.
   */
  method ProcessMatches(df: Frame, cfg: Config, f: Formulas) returns (r: Result<seq<LogRow>, MmrError>)
    ensures FirstMissing(RequiredColumns, df.columns).Some? ==>
      r == Failure(MissingColumn(FirstMissing(RequiredColumns, df.columns).value))
    ensures FirstMissing(RequiredColumns, df.columns).None? && Survivors(df.rows) == [] ==>
      r == Failure(NoValidDates)
    ensures FirstMissing(RequiredColumns, df.columns).None? && Survivors(df.rows) != [] ==>
      r.Success? &&
      exists ms :: Chronological(ms, Survivors(df.rows)) && r.value == Run(Ledger(map[], []), ms, cfg, f).rows
    ensures r.Success? ==> |r.value| == |Survivors(df.rows)|
  {
    var missing := CheckColumns(df.columns);
    if missing.Some? {
      return Failure(MissingColumn(missing.value));
    }
    var survivors := Survivors(df.rows);
    if |survivors| == 0 {
      return Failure(NoValidDates);
    }
    var ms := SortSeq(survivors, MatchDay);
    assert Chronological(ms, survivors);
    var rows := PlayAll(ms, cfg, f);
    assert |ms| == |multiset(ms)| == |survivors|;
    return Success(rows);
  }

  /** Plays the matches in order on a fresh team table and returns the log. */
  method PlayAll(ms: seq<Match>, cfg: Config, f: Formulas) returns (rows: seq<LogRow>)
    ensures rows == Run(Ledger(map[], []), ms, cfg, f).rows
    ensures |rows| == |ms|
  {
    var rater := new Rater(cfg, f);
    for i := 0 to |ms|
      invariant rater.cfg == cfg && rater.formulas == f
      invariant rater.State() == Run(Ledger(map[], []), ms[..i], cfg, f)
    {
      RunSnoc(Ledger(map[], []), ms, i, cfg, f);
      rater.ApplyMatch(ms[i]);
    }
    assert ms[..|ms|] == ms;
    rows := rater.rows;
  }
}
