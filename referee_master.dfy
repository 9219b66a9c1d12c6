/**
 * The master-schedule half of schedule/referee.py: splitting a division
 * label, turning a row of the 'Master' sheet into a game record, and the
 * loop of `read_master_spreadsheet` that sorts the rows into referee games
 * (the town plays at home) and schedule-engine games (the town plays).
 */
module RefereeMaster {
  import opened Options
  import opened PyText
  import opened PyDates
  import opened Cells

  /**
   * `get_age_gender(field)`: the label split on single spaces; the third
   * piece is the gender, the first two joined by a space the age group.
   * Fewer than three pieces raise IndexError.
   */
  function AgeGender(field: string): (r: Result<(string, string)>)
    ensures r.Ok? <==> |SplitOn(field, " ")| >= 3
    ensures r.Err? ==> r.error == IndexError
  {
    var parts := SplitOn(field, " ");
    if |parts| < 3 then Err(IndexError)
    else Ok((parts[2], parts[0] + " " + parts[1]))
  }

  /**
   * A label made of three space-free words, optionally followed by more
   * space-separated text, gives the third word as the gender and the first
   * two as the age group.
   */
  lemma AgeGenderOfLabel(a: string, b: string, g: string, tail: string)
    requires ' ' !in a && ' ' !in b && ' ' !in g
    requires tail == [] || tail[0] == ' '
    ensures AgeGender(a + " " + b + " " + g + tail) == Ok((g, a + " " + b))
  {
    var full := a + " " + b + " " + g + tail;
    var rest := SplitOn(g + tail, [' ']);
    if tail == [] {
      assert g + tail == g;
      SplitOnNone(g, ' ');
    } else {
      assert g + tail == g + [' '] + tail[1..];
      SplitOnFirst(g, ' ', tail[1..]);
    }
    assert rest[0] == g;
    assert full == a + [' '] + (b + [' '] + (g + tail));
    SplitOnFirst(a, ' ', b + [' '] + (g + tail));
    SplitOnFirst(b, ' ', g + tail);
    var parts := SplitOn(full, [' ']);
    assert parts == [a] + ([b] + rest);
    assert parts[0] == a && parts[1] == b && parts[2] == g;
  }

  /** "Grade 3/4 Boys" is the Boys of Grade 3/4. */
  lemma AgeGenderBoysExample(field: string)
    requires field == "Grade 3/4 Boys"
    ensures AgeGender(field) == Ok(("Boys", "Grade 3/4"))
  {
    AgeGenderOfLabel("Grade", "3/4", "Boys", "");
    assert field == "Grade" + " " + "3/4" + " " + "Boys" + "";
    assert "Grade" + " " + "3/4" == "Grade 3/4";
  }

  /** "Grade 3/4 Girls" is the Girls of Grade 3/4. */
  lemma AgeGenderGirlsExample(field: string)
    requires field == "Grade 3/4 Girls"
    ensures AgeGender(field) == Ok(("Girls", "Grade 3/4"))
  {
    AgeGenderOfLabel("Grade", "3/4", "Girls", "");
    assert field == "Grade" + " " + "3/4" + " " + "Girls" + "";
    assert "Grade" + " " + "3/4" == "Grade 3/4";
  }

  /** The record `process_row` builds. */
  datatype GameInfo = GameInfo(gender: string, ageGroup: string, date: string, homeTeam: string, awayTeam: string)

  /**
   * `c.strftime("%m/%d/%Y")`: a date cell is written as MM/DD/YYYY, a time
   * cell stands on 1900-01-01, any other cell has no `strftime`.
   */
  function CellStrftimeMDY(c: Cell): (r: Result<string>)
    ensures r.Ok? <==> c.DateC? || c.TimeC?
    ensures r.Ok? ==> |r.value| == 10 && r.value[2] == '/' && r.value[5] == '/'
    ensures r.Err? ==> r.error == AttributeError
  {
    match c
    case DateC(d) => Ok(FormatMDY(d))
    case TimeC(_) => Ok(FormatMDY(Date(1900, 1, 1)))
    case _ => Err(AttributeError)
  }

  /** `c.split(' ')`: only a string cell has it. */
  function CellLabel(c: Cell): (r: Result<string>)
    ensures r.Ok? <==> c.Str?
    ensures r.Ok? ==> r.value == c.s
  {
    if c.Str? then Ok(c.s) else Err(AttributeError)
  }

  /** `f"{a}-{b}"` of two cells. */
  function TeamLabel(a: Cell, b: Cell): string {
    CellText(a) + "-" + CellText(b)
  }

  /** A row `process_row` accepts: seven cells, a three-word label, a date or time in column 2. */
  predicate ProcessableRow(row: seq<Cell>) {
    |row| >= 7 && row[0].Str? && |SplitOn(row[0].s, " ")| >= 3 && (row[2].DateC? || row[2].TimeC?)
  }

  /**
   * `process_row(row)`, evaluated in the order Python evaluates it: the
   * label in column 0, the date in column 2, the teams in columns 3-6.
   */
  function ProcessRow(row: seq<Cell>): (r: Result<GameInfo>)
    ensures r.Ok? <==> ProcessableRow(row)
    ensures row == [] ==> r == Err(IndexError)
    ensures row != [] && !row[0].Str? ==> r == Err(AttributeError)
  {
    match CellAt(row, 0)
    case Err(e) => Err(e)
    case Ok(c0) =>
      match CellLabel(c0)
      case Err(e) => Err(e)
      case Ok(text) =>
        match AgeGender(text)
        case Err(e) => Err(e)
        case Ok((gender, ageGroup)) =>
          match CellAt(row, 2)
          case Err(e) => Err(e)
          case Ok(c2) =>
            match CellStrftimeMDY(c2)
            case Err(e) => Err(e)
            case Ok(date) =>
              if |row| < 7 then Err(IndexError)
              else Ok(GameInfo(gender, ageGroup, date, TeamLabel(row[3], row[4]), TeamLabel(row[5], row[6])))
  }

  /**
   * The record of an accepted row: gender and age group from the label in
   * column 0, the date in column 2 written so that `%m/%d/%Y` reads it back,
   * and "col3-col4" / "col5-col6" as the teams.
   */
  lemma ProcessRowFields(row: seq<Cell>)
    requires ProcessableRow(row)
    ensures var g := ProcessRow(row).value;
      Ok((g.gender, g.ageGroup)) == AgeGender(row[0].s) &&
      (row[2].DateC? ==> StrptimeMDY(g.date, true) == Some(row[2].date) && g.date == FormatMDY(row[2].date)) &&
      g.homeTeam == CellText(row[3]) + "-" + CellText(row[4]) &&
      g.awayTeam == CellText(row[5]) + "-" + CellText(row[6])
  {
    if row[2].DateC? {
      MDYRoundTrip(row[2].date);
    }
  }

  /** A referee-site entry. */
  datatype RefereeGame = RefereeGame(gameId: string, gameType: string, gender: string, ageGroup: string,
                                     date: string, league: string, homeTeam: string, awayTeam: string)

  /** The referee entry made from a home game of `town`. */
  function RefereeOf(g: GameInfo, town: string): (e: RefereeGame)
    ensures e.gameId == "" && e.gameType == "Coastal" && e.league == Title(town)
    ensures e.gender == g.gender && e.ageGroup == g.ageGroup && e.date == g.date
    ensures e.homeTeam == g.homeTeam && e.awayTeam == g.awayTeam
  {
    RefereeGame("", "Coastal", g.gender, g.ageGroup, g.date, Title(town), g.homeTeam, g.awayTeam)
  }

  /** How the loop treats a row. */
  datatype Kind = Home | AwayOnly | Skip

  /** Column 3, lower-cased, is the town. */
  predicate IsHomeRow(row: seq<Cell>, town: string) {
    |row| > 3 && row[3].Str? && Lower(row[3].s) == town
  }

  /** Column 3 is another town's string and column 5, lower-cased, is the town. */
  predicate IsAwayOnlyRow(row: seq<Cell>, town: string) {
    |row| > 5 && row[3].Str? && Lower(row[3].s) != town && row[5].Str? && Lower(row[5].s) == town
  }

  /** `row[3].lower() == town_team` and, failing that, `row[5].lower() == town_team`. */
  function Classify(row: seq<Cell>, town: string): (r: Result<Kind>)
    ensures r == Ok(Home) <==> IsHomeRow(row, town)
    ensures r == Ok(AwayOnly) <==> IsAwayOnlyRow(row, town)
    ensures r.Err? <==> !(|row| > 3 && row[3].Str?) || (Lower(row[3].s) != town && !(|row| > 5 && row[5].Str?))
  {
    match CellAt(row, 3)
    case Err(e) => Err(e)
    case Ok(c3) =>
      match CellLower(c3)
      case Err(e) => Err(e)
      case Ok(l3) =>
        if l3 == town then Ok(Home)
        else
          match CellAt(row, 5)
          case Err(e) => Err(e)
          case Ok(c5) =>
            match CellLower(c5)
            case Err(e) => Err(e)
            case Ok(l5) => if l5 == town then Ok(AwayOnly) else Ok(Skip)
  }

  /** The two lists the loop builds. */
  datatype Tally = Tally(seGames: seq<GameInfo>, refereeGames: seq<RefereeGame>)

  /** One pass of the loop body; an exception escapes as `Err`. */
  function Step(t: Tally, row: seq<Cell>, town: string): Result<Tally> {
    match Classify(row, town)
    case Err(e) => Err(e)
    case Ok(k) =>
      if k == Skip then Ok(t)
      else
        match ProcessRow(row)
        case Err(e) => Err(e)
        case Ok(g) =>
          Ok(Tally(t.seGames + [g], if k == Home then t.refereeGames + [RefereeOf(g, town)] else t.refereeGames))
  }

  /** The loop over `rows`, as a fold from the last row backwards. */
  function MasterRows(rows: seq<seq<Cell>>, town: string): Result<Tally>
    decreases |rows|
  {
    if rows == [] then Ok(Tally([], []))
    else
      match MasterRows(rows[..|rows| - 1], town)
      case Err(e) => Err(e)
      case Ok(t) => Step(t, rows[|rows| - 1], town)
  }

  /** The rows where the town plays at home, in order. */
  function HomeRows(rows: seq<seq<Cell>>, town: string): seq<seq<Cell>>
    decreases |rows|
  {
    if rows == [] then []
    else HomeRows(rows[..|rows| - 1], town) + (if IsHomeRow(rows[|rows| - 1], town) then [rows[|rows| - 1]] else [])
  }

  /** The rows where the town plays, home or away, in order. */
  function PlayedRows(rows: seq<seq<Cell>>, town: string): seq<seq<Cell>>
    decreases |rows|
  {
    if rows == [] then []
    else
      var row := rows[|rows| - 1];
      PlayedRows(rows[..|rows| - 1], town) + (if IsHomeRow(row, town) || IsAwayOnlyRow(row, town) then [row] else [])
  }

  /** `refs` holds the referee entry of each row of `hs`, in order. */
  predicate RefereesOfRows(refs: seq<RefereeGame>, hs: seq<seq<Cell>>, town: string) {
    |refs| == |hs| &&
    forall i :: 0 <= i < |hs| ==> ProcessRow(hs[i]).Ok? && refs[i] == RefereeOf(ProcessRow(hs[i]).value, town)
  }

  /** `games` holds the record of each row of `ps`, in order. */
  predicate GamesOfRows(games: seq<GameInfo>, ps: seq<seq<Cell>>) {
    |games| == |ps| && forall i :: 0 <= i < |ps| ==> ProcessRow(ps[i]).Ok? && games[i] == ProcessRow(ps[i]).value
  }

  lemma RefereesOfRowsSnoc(refs: seq<RefereeGame>, hs: seq<seq<Cell>>, row: seq<Cell>, town: string)
    requires RefereesOfRows(refs, hs, town) && ProcessRow(row).Ok?
    ensures RefereesOfRows(refs + [RefereeOf(ProcessRow(row).value, town)], hs + [row], town)
  {
  }

  lemma GamesOfRowsSnoc(games: seq<GameInfo>, ps: seq<seq<Cell>>, row: seq<Cell>)
    requires GamesOfRows(games, ps) && ProcessRow(row).Ok?
    ensures GamesOfRows(games + [ProcessRow(row).value], ps + [row])
  {
  }

  /**
   * When no row raises, the referee games are exactly the home rows'
   * entries, one per home row and in row order, and the schedule-engine
   * games are exactly the records of the rows the town plays in.
   */
  lemma {:induction false} MasterRowsMeaning(rows: seq<seq<Cell>>, town: string)
    requires MasterRows(rows, town).Ok?
    ensures RefereesOfRows(MasterRows(rows, town).value.refereeGames, HomeRows(rows, town), town)
    ensures GamesOfRows(MasterRows(rows, town).value.seGames, PlayedRows(rows, town))
    decreases |rows|
  {
    if rows != [] {
      var init := rows[..|rows| - 1];
      var row := rows[|rows| - 1];
      MasterRowsMeaning(init, town);
      var t0 := MasterRows(init, town).value;
      assert MasterRows(rows, town) == Step(t0, row, town);
      var t := MasterRows(rows, town).value;
      var k := Classify(row, town);
      assert k.Ok?;
      assert HomeRows(rows, town) == HomeRows(init, town) + (if IsHomeRow(row, town) then [row] else []);
      assert PlayedRows(rows, town) ==
        PlayedRows(init, town) + (if IsHomeRow(row, town) || IsAwayOnlyRow(row, town) then [row] else []);
      if k.value == Skip {
        assert t == t0;
        assert HomeRows(rows, town) == HomeRows(init, town) + [];
        assert PlayedRows(rows, town) == PlayedRows(init, town) + [];
      } else {
        assert ProcessRow(row).Ok?;
        var g := ProcessRow(row).value;
        GamesOfRowsSnoc(t0.seGames, PlayedRows(init, town), row);
        if k.value == Home {
          assert t == Tally(t0.seGames + [g], t0.refereeGames + [RefereeOf(g, town)]);
          RefereesOfRowsSnoc(t0.refereeGames, HomeRows(init, town), row, town);
        } else {
          assert t == Tally(t0.seGames + [g], t0.refereeGames);
          assert HomeRows(rows, town) == HomeRows(init, town) + [];
        }
      }
    }
  }

  /** Every referee entry is a Coastal game of the title-cased town, without a game id. */
  lemma RefereeConstants(rows: seq<seq<Cell>>, town: string)
    requires MasterRows(rows, town).Ok?
    ensures forall e :: e in MasterRows(rows, town).value.refereeGames ==>
      e.gameId == "" && e.gameType == "Coastal" && e.league == Title(town)
  {
    MasterRowsMeaning(rows, town);
  }

  /** A home row is a played row, so there are never more referee games than schedule games. */
  lemma {:induction false} HomeRowsFewer(rows: seq<seq<Cell>>, town: string)
    ensures |HomeRows(rows, town)| <= |PlayedRows(rows, town)|
    decreases |rows|
  {
    if rows != [] {
      HomeRowsFewer(rows[..|rows| - 1], town);
    }
  }

  lemma RefereeGamesFewer(rows: seq<seq<Cell>>, town: string)
    requires MasterRows(rows, town).Ok?
    ensures |MasterRows(rows, town).value.refereeGames| <= |MasterRows(rows, town).value.seGames|
  {
    MasterRowsMeaning(rows, town);
    HomeRowsFewer(rows, town);
  }

  /** A row where the town only plays away adds a schedule game and no referee game. */
  lemma AwayRowAddsNoReferee(rows: seq<seq<Cell>>, row: seq<Cell>, town: string)
    requires MasterRows(rows, town).Ok? && IsAwayOnlyRow(row, town) && ProcessableRow(row)
    ensures var t := MasterRows(rows, town).value;
      MasterRows(rows + [row], town) == Ok(Tally(t.seGames + [ProcessRow(row).value], t.refereeGames))
  {
    assert (rows + [row])[..|rows|] == rows;
  }

  /** Once a row raises, the exception escapes whatever rows follow. */
  lemma {:induction false} MasterRowsErrStays(rows: seq<seq<Cell>>, k: nat, town: string)
    requires k <= |rows| && MasterRows(rows[..k], town).Err?
    ensures MasterRows(rows, town) == MasterRows(rows[..k], town)
    decreases |rows|
  {
    if k < |rows| {
      var init := rows[..|rows| - 1];
      assert init[..k] == rows[..k];
      MasterRowsErrStays(init, k, town);
    } else {
      assert rows[..k] == rows;
    }
  }

  /** The first worksheet titled 'Master', or `None` when `read_excel` raises ValueError. */
  function MasterSheet(sheets: seq<Sheet>): (r: Option<seq<seq<Cell>>>)
    ensures r.None? <==> forall i :: 0 <= i < |sheets| ==> sheets[i].title != "Master"
    ensures r.Some? ==> exists i :: 0 <= i < |sheets| && sheets[i].title == "Master" && sheets[i].values == r.value
    decreases |sheets|
  {
    if sheets == [] then None
    else if sheets[0].title == "Master" then Some(sheets[0].values)
    else
      var r := MasterSheet(sheets[1..]);
      assert forall i :: 1 <= i < |sheets| ==> sheets[i] == sheets[1..][i - 1];
      if r.Some? then
        var j :| 0 <= j < |sheets[1..]| && sheets[1..][j].title == "Master" && sheets[1..][j].values == r.value;
        assert sheets[j + 1] == sheets[1..][j];
        r
      else r
  }

  /**
   * What `read_master_spreadsheet` returns: on a missing sheet both lists
   * (empty) and rc 22; on success the referee games and rc 0, without an
   * 'se_games' entry.
   */
  datatype MasterResult = MasterResult(refereeGames: seq<RefereeGame>, seGames: Option<seq<GameInfo>>, rc: int)

  function NotFoundMessage(fileName: string): string {
    "Master sheet not found in " + fileName
  }

  /**
   * `read_master_spreadsheet(file_name, town_team)` over the workbook's
   * sheets. An exception a row raises escapes as `Err`.
   */
  method ReadMasterSpreadsheet(fileName: string, sheets: seq<Sheet>, townTeam: string)
    returns (r: Result<MasterResult>, log: seq<LogLine>)
    ensures MasterSheet(sheets).None? ==>
      r == Ok(MasterResult([], Some([]), 22)) && log == [LogError(NotFoundMessage(fileName))]
    ensures MasterSheet(sheets).Some? ==> log == []
    ensures MasterSheet(sheets).Some? ==>
      (match MasterRows(MasterSheet(sheets).value, townTeam)
       case Err(e) => r == Err(e)
       case Ok(t) => r == Ok(MasterResult(t.refereeGames, None, 0)))
  {
    var master := MasterSheet(sheets);
    if master.None? {
      log := [LogError(NotFoundMessage(fileName))];
      return Ok(MasterResult([], Some([]), 22)), log;
    }
    log := [];
    var rows := master.value;
    var seGames: seq<GameInfo> := [];
    var refereeGames: seq<RefereeGame> := [];
    var i := 0;
    while i < |rows|
      invariant 0 <= i <= |rows|
      invariant MasterRows(rows[..i], townTeam) == Ok(Tally(seGames, refereeGames))
    {
      assert rows[..i + 1][..i] == rows[..i];
      var row := rows[i];
      var kind := Classify(row, townTeam);
      if kind.Err? {
        MasterRowsErrStays(rows, i + 1, townTeam);
        return Err(kind.error), log;
      }
      if kind.value != Skip {
        var game := ProcessRow(row);
        if game.Err? {
          MasterRowsErrStays(rows, i + 1, townTeam);
          return Err(game.error), log;
        }
        seGames := seGames + [game.value];
        if kind.value == Home {
          refereeGames := refereeGames + [RefereeOf(game.value, townTeam)];
        }
      }
      i := i + 1;
    }
    assert rows[..i] == rows;
    r := Ok(MasterResult(refereeGames, None, 0));
  }
}
