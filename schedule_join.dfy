// The join at the end of `main` in schedule/referee.py: the town's game
// times merged with the master schedule's referee games on age group, date,
// gender and home team (a pandas inner merge), giving one assignment row
// per matching pair in the column order the CSV is written in.

module ScheduleJoin {
  import opened Cells
  import opened TownGrid
  import opened RefereeMaster

  /** The merge key `['age_group', 'date', 'gender', 'home_team']`. */
  datatype JoinKey = JoinKey(ageGroup: string, date: string, gender: string, homeTeam: string)

  function TownKey(t: TownGame): JoinKey {
    JoinKey(t.ageGroup, t.date, t.gender, t.homeTeam)
  }

  function RefereeKey(r: RefereeGame): JoinKey {
    JoinKey(r.ageGroup, r.date, r.gender, r.homeTeam)
  }

  predicate Joinable(t: TownGame, r: RefereeGame) {
    TownKey(t) == RefereeKey(r)
  }

  /**
   * One merged row, with the columns `game_id, date, time, venue, sub_venue,
   * age_group, league, gender, game_type, home_team, away_team`.
   */
  datatype Assignment = Assignment(gameId: string, date: string, time: string, venue: string, subVenue: string,
                                   ageGroup: string, league: string, gender: string, gameType: string,
                                   homeTeam: string, awayTeam: string)

  /** The merged row of a town game and a referee game that agree on the key. */
  function Combine(t: TownGame, r: RefereeGame): Assignment
    requires Joinable(t, r)
  {
    Assignment(r.gameId, t.date, t.time, t.venue, t.subVenue, t.ageGroup, r.league, t.gender, r.gameType,
               t.homeTeam, r.awayTeam)
  }

  /** The rows one town game contributes: one per matching referee game, in referee order. */
  function Matches(t: TownGame, rs: seq<RefereeGame>): seq<Assignment>
    decreases |rs|
  {
    if rs == [] then []
    else (if Joinable(t, rs[0]) then [Combine(t, rs[0])] else []) + Matches(t, rs[1..])
  }

  /** `pd.merge(town, referee, how='inner', on=[...])`: left-major, keeping the town order. */
  function InnerJoin(ts: seq<TownGame>, rs: seq<RefereeGame>): seq<Assignment>
    decreases |ts|
  {
    if ts == [] then [] else Matches(ts[0], rs) + InnerJoin(ts[1..], rs)
  }

  lemma {:induction false} MatchesMembership(t: TownGame, rs: seq<RefereeGame>, a: Assignment)
    ensures a in Matches(t, rs) <==> exists j :: 0 <= j < |rs| && Joinable(t, rs[j]) && a == Combine(t, rs[j])
    decreases |rs|
  {
    if rs != [] {
      MatchesMembership(t, rs[1..], a);
      if exists j :: 0 <= j < |rs| && Joinable(t, rs[j]) && a == Combine(t, rs[j]) {
        var j :| 0 <= j < |rs| && Joinable(t, rs[j]) && a == Combine(t, rs[j]);
        if j > 0 {
          assert rs[1..][j - 1] == rs[j];
        }
      }
      if a in Matches(t, rs[1..]) {
        var j :| 0 <= j < |rs[1..]| && Joinable(t, rs[1..][j]) && a == Combine(t, rs[1..][j]);
        assert rs[j + 1] == rs[1..][j];
      }
    }
  }

  /** Every merged row combines a town game and a referee game that agree on the key. */
  lemma {:induction false} InnerJoinSound(ts: seq<TownGame>, rs: seq<RefereeGame>, a: Assignment)
    requires a in InnerJoin(ts, rs)
    ensures exists i, j :: 0 <= i < |ts| && 0 <= j < |rs| && Joinable(ts[i], rs[j]) && a == Combine(ts[i], rs[j])
    decreases |ts|
  {
    assert InnerJoin(ts, rs) == Matches(ts[0], rs) + InnerJoin(ts[1..], rs);
    if a in Matches(ts[0], rs) {
      MatchesMembership(ts[0], rs, a);
      var j :| 0 <= j < |rs| && Joinable(ts[0], rs[j]) && a == Combine(ts[0], rs[j]);
      assert 0 < |ts|;
    } else {
      InnerJoinSound(ts[1..], rs, a);
      var i, j :| 0 <= i < |ts[1..]| && 0 <= j < |rs| && Joinable(ts[1..][i], rs[j]) && a == Combine(ts[1..][i], rs[j]);
      assert ts[i + 1] == ts[1..][i];
    }
  }

  /** Every agreeing pair appears in the merged schedule. */
  lemma {:induction false} InnerJoinComplete(ts: seq<TownGame>, rs: seq<RefereeGame>, i: nat, j: nat)
    requires i < |ts| && j < |rs| && Joinable(ts[i], rs[j])
    ensures Combine(ts[i], rs[j]) in InnerJoin(ts, rs)
    decreases |ts|
  {
    assert InnerJoin(ts, rs) == Matches(ts[0], rs) + InnerJoin(ts[1..], rs);
    if i == 0 {
      MatchesMembership(ts[0], rs, Combine(ts[i], rs[j]));
    } else {
      assert ts[1..][i - 1] == ts[i];
      InnerJoinComplete(ts[1..], rs, i - 1, j);
    }
  }

  /**
   * The merged schedule holds exactly the combinations of a town game and a
   * referee game that agree on age group, date, gender and home team.
   */
  lemma InnerJoinMembership(ts: seq<TownGame>, rs: seq<RefereeGame>, a: Assignment)
    ensures a in InnerJoin(ts, rs) <==>
      exists i, j :: 0 <= i < |ts| && 0 <= j < |rs| && Joinable(ts[i], rs[j]) && a == Combine(ts[i], rs[j])
  {
    if a in InnerJoin(ts, rs) {
      InnerJoinSound(ts, rs, a);
    }
    if exists i, j :: 0 <= i < |ts| && 0 <= j < |rs| && Joinable(ts[i], rs[j]) && a == Combine(ts[i], rs[j]) {
      var i, j :| 0 <= i < |ts| && 0 <= j < |rs| && Joinable(ts[i], rs[j]) && a == Combine(ts[i], rs[j]);
      InnerJoinComplete(ts, rs, i, j);
    }
  }

  /** The rows of earlier town games come first: the join distributes over concatenation of the town list. */
  lemma {:induction false} InnerJoinAppend(ts1: seq<TownGame>, ts2: seq<TownGame>, rs: seq<RefereeGame>)
    ensures InnerJoin(ts1 + ts2, rs) == InnerJoin(ts1, rs) + InnerJoin(ts2, rs)
    decreases |ts1|
  {
    if ts1 != [] {
      assert (ts1 + ts2)[0] == ts1[0];
      assert (ts1 + ts2)[1..] == ts1[1..] + ts2;
      InnerJoinAppend(ts1[1..], ts2, rs);
    } else {
      assert ts1 + ts2 == ts2;
    }
  }

  /** Referee games with pairwise distinct keys: the master lists each game once. */
  predicate DistinctKeys(rs: seq<RefereeGame>) {
    forall j, k :: 0 <= j < k < |rs| ==> RefereeKey(rs[j]) != RefereeKey(rs[k])
  }

  lemma {:induction false} MatchesAtMostOne(t: TownGame, rs: seq<RefereeGame>)
    requires DistinctKeys(rs)
    ensures |Matches(t, rs)| <= 1
    ensures |Matches(t, rs)| == 1 <==> exists j :: 0 <= j < |rs| && Joinable(t, rs[j])
    decreases |rs|
  {
    if rs != [] {
      MatchesAtMostOne(t, rs[1..]);
      if Joinable(t, rs[0]) {
        forall j | 0 <= j < |rs[1..]|
          ensures !Joinable(t, rs[1..][j])
        {
          assert rs[1..][j] == rs[j + 1];
        }
      }
      if exists j :: 0 <= j < |rs| && Joinable(t, rs[j]) {
        var j :| 0 <= j < |rs| && Joinable(t, rs[j]);
        if j > 0 {
          assert rs[1..][j - 1] == rs[j];
        }
      }
      if exists j :: 0 <= j < |rs[1..]| && Joinable(t, rs[1..][j]) {
        var j :| 0 <= j < |rs[1..]| && Joinable(t, rs[1..][j]);
        assert rs[j + 1] == rs[1..][j];
      }
    }
  }

  /** With each referee game listed once, every town game yields at most one assignment row. */
  lemma {:induction false} InnerJoinAtMostOnePerGame(ts: seq<TownGame>, rs: seq<RefereeGame>)
    requires DistinctKeys(rs)
    ensures |InnerJoin(ts, rs)| <= |ts|
    decreases |ts|
  {
    if ts != [] {
      MatchesAtMostOne(ts[0], rs);
      InnerJoinAtMostOnePerGame(ts[1..], rs);
    }
  }

  /** Joining with no referee games gives an empty schedule. */
  lemma {:induction false} InnerJoinNoReferees(ts: seq<TownGame>)
    ensures InnerJoin(ts, []) == []
    decreases |ts|
  {
    if ts != [] {
      InnerJoinNoReferees(ts[1..]);
    }
  }

  /**
   * The merge as written: `pd.DataFrame.from_dict` of an empty list is a
   * frame without columns, and merging on a column it lacks raises KeyError.
   */
  function MergeAsWritten(ts: seq<TownGame>, rs: seq<RefereeGame>): Result<seq<Assignment>> {
    if ts == [] || rs == [] then Err(KeyError) else Ok(InnerJoin(ts, rs))
  }

  /**
   * A town with games but no home game in the master schedule: the merge
   * as written fails, where the inner join of the two lists is empty.
   */
  lemma NoRefereeGamesFails(ts: seq<TownGame>)
    ensures MergeAsWritten(ts, []) == Err(KeyError)
    ensures InnerJoin(ts, []) == []
  {
    InnerJoinNoReferees(ts);
  }
}
