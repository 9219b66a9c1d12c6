/**
 * schedule/helpers/master_schedule.py: the master schedule read from a
 * Google sheet. Rows are lists of cell values; a M/D/YY date in column 2 is
 * rewritten as MM/DD/YYYY, and `MasterSchedule` collects the referee games
 * and schedule-engine games of one town from its rows, skipping byes.
 */
module MasterScheduleSheet {
  import opened Options
  import opened PyText
  import opened PyDates
  import opened Cells
  import RefereeMaster

  /** `process_row`'s record; `date` is `None` when the date would not parse. */
  datatype GameRecord = GameRecord(gender: string, ageGroup: string, date: Option<string>, homeTeam: string, awayTeam: string)

  /** A referee-site entry, copying the record's fields. */
  datatype RefereeEntry = RefereeEntry(gameId: string, gameType: string, gender: string, ageGroup: string,
                                       date: Option<string>, league: string, homeTeam: string, awayTeam: string)

  /**
   * `datetime.strptime(c, "%m/%d/%y").strftime("%m/%d/%Y")`: `Ok(None)` is
   * the ValueError the function catches; a cell that is not a string makes
   * `strptime` raise TypeError, which it does not catch.
   */
  function ReformatDate(c: Cell): (r: Result<Option<string>>)
    ensures r.Ok? <==> c.Str?
    ensures r.Ok? ==> (r.value.Some? <==> StrptimeMDY(c.s, false).Some?)
    ensures r.Ok? && r.value.Some? ==> StrptimeMDY(r.value.value, true) == StrptimeMDY(c.s, false)
    ensures r.Err? ==> r.error == TypeError
  {
    if !c.Str? then Err(TypeError)
    else
      match StrptimeMDY(c.s, false)
      case None => Ok(None)
      case Some(d) =>
        MDYRoundTrip(d);
        Ok(Some(FormatMDY(d)))
  }

  /** '1/1/99' is rewritten '01/01/1999'. */
  lemma ShortDateExample()
    ensures ReformatDate(Str("1/1/99")) == Ok(Some("01/01/1999"))
  {
    ShortYearExample("1/1/99");
    LongYearFormatExample();
  }

  /** `c.split(' ')`: only a string cell has it. */
  function CellLabel(c: Cell): (r: Result<string>)
    ensures r.Ok? <==> c.Str?
    ensures r.Ok? ==> r.value == c.s
    ensures r.Err? ==> r.error == AttributeError
  {
    if c.Str? then Ok(c.s) else Err(AttributeError)
  }

  /** A row `process_row` accepts: seven cells, a three-word label and a string in column 2. */
  predicate ProcessableRow(row: seq<Cell>) {
    |row| >= 7 && row[0].Str? && |SplitOn(row[0].s, " ")| >= 3 && row[2].Str?
  }

  /**
   * `process_row(row)`: the label in column 0, the date in column 2 (a bad
   * date is logged and left `None`), then the teams from columns 3-6.
   */
  function ProcessRow(row: seq<Cell>): (r: Result<GameRecord>)
    ensures r.Ok? <==> ProcessableRow(row)
  {
    match CellAt(row, 0)
    case Err(e) => Err(e)
    case Ok(c0) =>
      match CellLabel(c0)
      case Err(e) => Err(e)
      case Ok(text) =>
        match RefereeMaster.AgeGender(text)
        case Err(e) => Err(e)
        case Ok((gender, ageGroup)) =>
          match CellAt(row, 2)
          case Err(e) => Err(e)
          case Ok(c2) =>
            match ReformatDate(c2)
            case Err(e) => Err(e)
            case Ok(date) =>
              if |row| < 7 then Err(IndexError)
              else Ok(GameRecord(gender, ageGroup, date, RefereeMaster.TeamLabel(row[3], row[4]),
                                 RefereeMaster.TeamLabel(row[5], row[6])))
  }

  /**
   * The record of an accepted row: gender and age group from column 0, the
   * date present exactly when column 2 is a M/D/YY date, and then naming the
   * same day as MM/DD/YYYY; the teams are "col3-col4" and "col5-col6" even
   * when the date is bad.
   */
  lemma ProcessRowFields(row: seq<Cell>)
    requires ProcessableRow(row)
    ensures var g := ProcessRow(row).value;
      Ok((g.gender, g.ageGroup)) == RefereeMaster.AgeGender(row[0].s) &&
      (g.date.Some? <==> StrptimeMDY(row[2].s, false).Some?) &&
      (g.date.Some? ==> StrptimeMDY(g.date.value, true) == StrptimeMDY(row[2].s, false)) &&
      g.homeTeam == CellText(row[3]) + "-" + CellText(row[4]) &&
      g.awayTeam == CellText(row[5]) + "-" + CellText(row[6])
  {
  }

  /** Column 3, lower-cased, is the town and column 5 is not a bye. */
  predicate IsHomeRow(row: seq<Cell>, town: string) {
    |row| > 5 && row[3].Str? && Lower(row[3].s) == town &&
    row[5].Str? && Lower(row[5].s) != "bye" && Lower(row[5].s) != "no game"
  }

  /** Not a home row, and column 5, lower-cased, is the town. */
  predicate IsAwayRow(row: seq<Cell>, town: string) {
    |row| > 5 && row[3].Str? && row[5].Str? && !IsHomeRow(row, town) && Lower(row[5].s) == town
  }

  datatype Kind = Home | Away | Skip

  /**
   * `row[3].lower() == town_team and row[5].lower() not in ['bye',
   * 'no game']`, and failing that `row[5].lower() == town_team`.
   */
  function Classify(row: seq<Cell>, town: string): (r: Result<Kind>)
    ensures r == Ok(Home) <==> IsHomeRow(row, town)
    ensures r == Ok(Away) <==> IsAwayRow(row, town)
    ensures r.Err? <==> !(|row| > 5 && row[3].Str? && row[5].Str?)
  {
    match CellAt(row, 3)
    case Err(e) => Err(e)
    case Ok(c3) =>
      match CellLower(c3)
      case Err(e) => Err(e)
      case Ok(l3) =>
        match CellAt(row, 5)
        case Err(e) => Err(e)
        case Ok(c5) =>
          match CellLower(c5)
          case Err(e) => Err(e)
          case Ok(l5) =>
            if l3 == town && l5 != "bye" && l5 != "no game" then Ok(Home)
            else if l5 == town then Ok(Away)
            else Ok(Skip)
  }

  /** A home row whose opponent column says 'BYE' or 'No Game' is never a referee game. */
  lemma ByeIsNoHomeGame(row: seq<Cell>, town: string)
    requires |row| > 5 && row[5].Str? && (Lower(row[5].s) == "bye" || Lower(row[5].s) == "no game")
    ensures Classify(row, town) != Ok(Home)
  {
  }

  function RefereeOf(g: GameRecord, town: string): (e: RefereeEntry)
    ensures e.gameId == "" && e.gameType == "Coastal" && e.league == Title(town)
    ensures e.gender == g.gender && e.ageGroup == g.ageGroup && e.date == g.date
    ensures e.homeTeam == g.homeTeam && e.awayTeam == g.awayTeam
  {
    RefereeEntry("", "Coastal", g.gender, g.ageGroup, g.date, Title(town), g.homeTeam, g.awayTeam)
  }

  /**
   * What the loop has appended when it stops: the schedule-engine games,
   * the referee entries, and the exception that stopped it, if any.
   */
  datatype Run = Run(seGames: seq<GameRecord>, refereeGames: seq<RefereeEntry>, failure: Option<PyError>)

  /** One pass of the loop body. */
  function Step(t: Run, row: seq<Cell>, town: string): (u: Run)
    requires t.failure.None?
  {
    match Classify(row, town)
    case Err(e) => Run(t.seGames, t.refereeGames, Some(e))
    case Ok(k) =>
      if k == Skip then t
      else
        match ProcessRow(row)
        case Err(e) => Run(t.seGames, t.refereeGames, Some(e))
        case Ok(g) =>
          Run(t.seGames + [g], if k == Home then t.refereeGames + [RefereeOf(g, town)] else t.refereeGames, None)
  }

  /**
   * The loop over `rows` from empty lists, as a fold from the last row
   * backwards; after an exception nothing more is appended.
   */
  function Process(rows: seq<seq<Cell>>, town: string): Run
    decreases |rows|
  {
    if rows == [] then Run([], [], None)
    else
      var t := Process(rows[..|rows| - 1], town);
      if t.failure.Some? then t else Step(t, rows[|rows| - 1], town)
  }

  /** Each referee append comes with a schedule-engine append, so the referee list is never longer. */
  lemma {:induction false} ProcessFewer(rows: seq<seq<Cell>>, town: string)
    ensures |Process(rows, town).refereeGames| <= |Process(rows, town).seGames|
    decreases |rows|
  {
    if rows != [] {
      ProcessFewer(rows[..|rows| - 1], town);
    }
  }

  /** The home rows among `rows`, in order. */
  function HomeRows(rows: seq<seq<Cell>>, town: string): seq<seq<Cell>>
    decreases |rows|
  {
    if rows == [] then []
    else HomeRows(rows[..|rows| - 1], town) + (if IsHomeRow(rows[|rows| - 1], town) then [rows[|rows| - 1]] else [])
  }

  /** The rows the town plays in, home or away, in order. */
  function PlayedRows(rows: seq<seq<Cell>>, town: string): seq<seq<Cell>>
    decreases |rows|
  {
    if rows == [] then []
    else
      var row := rows[|rows| - 1];
      PlayedRows(rows[..|rows| - 1], town) + (if IsHomeRow(row, town) || IsAwayRow(row, town) then [row] else [])
  }

  predicate EntriesOfRows(refs: seq<RefereeEntry>, hs: seq<seq<Cell>>, town: string) {
    |refs| == |hs| &&
    forall i :: 0 <= i < |hs| ==> ProcessRow(hs[i]).Ok? && refs[i] == RefereeOf(ProcessRow(hs[i]).value, town)
  }

  predicate RecordsOfRows(games: seq<GameRecord>, ps: seq<seq<Cell>>) {
    |games| == |ps| && forall i :: 0 <= i < |ps| ==> ProcessRow(ps[i]).Ok? && games[i] == ProcessRow(ps[i]).value
  }

  lemma EntriesOfRowsSnoc(refs: seq<RefereeEntry>, hs: seq<seq<Cell>>, row: seq<Cell>, town: string)
    requires EntriesOfRows(refs, hs, town) && ProcessRow(row).Ok?
    ensures EntriesOfRows(refs + [RefereeOf(ProcessRow(row).value, town)], hs + [row], town)
  {
  }

  lemma RecordsOfRowsSnoc(games: seq<GameRecord>, ps: seq<seq<Cell>>, row: seq<Cell>)
    requires RecordsOfRows(games, ps) && ProcessRow(row).Ok?
    ensures RecordsOfRows(games + [ProcessRow(row).value], ps + [row])
  {
  }

  /**
   * When no row raises, the referee entries are those of the home rows and
   * the schedule-engine games those of the rows the town plays in, each
   * once and in row order.
   */
  lemma {:induction false} ProcessMeaning(rows: seq<seq<Cell>>, town: string)
    requires Process(rows, town).failure.None?
    ensures EntriesOfRows(Process(rows, town).refereeGames, HomeRows(rows, town), town)
    ensures RecordsOfRows(Process(rows, town).seGames, PlayedRows(rows, town))
    decreases |rows|
  {
    if rows != [] {
      var init := rows[..|rows| - 1];
      var row := rows[|rows| - 1];
      var t0 := Process(init, town);
      assert t0.failure.None?;
      ProcessMeaning(init, town);
      assert Process(rows, town) == Step(t0, row, town);
      var t := Process(rows, town);
      var k := Classify(row, town);
      assert k.Ok?;
      assert HomeRows(rows, town) == HomeRows(init, town) + (if IsHomeRow(row, town) then [row] else []);
      assert PlayedRows(rows, town) ==
        PlayedRows(init, town) + (if IsHomeRow(row, town) || IsAwayRow(row, town) then [row] else []);
      if k.value == Skip {
        assert t == t0;
        assert HomeRows(rows, town) == HomeRows(init, town) + [];
        assert PlayedRows(rows, town) == PlayedRows(init, town) + [];
      } else {
        assert ProcessRow(row).Ok?;
        var g := ProcessRow(row).value;
        RecordsOfRowsSnoc(t0.seGames, PlayedRows(init, town), row);
        if k.value == Home {
          assert t == Run(t0.seGames + [g], t0.refereeGames + [RefereeOf(g, town)], None);
          EntriesOfRowsSnoc(t0.refereeGames, HomeRows(init, town), row, town);
        } else {
          assert t == Run(t0.seGames + [g], t0.refereeGames, None);
          assert HomeRows(rows, town) == HomeRows(init, town) + [];
        }
      }
    }
  }

  /** What the Sheets API call produced: an HttpError, or a response that may hold 'values'. */
  datatype SheetResponse = HttpFailure | Response(values: Option<seq<seq<Cell>>>)

  class MasterSchedule {
    var id: string
    var sheetRange: string
    var values: Option<seq<seq<Cell>>>
    var refereeGames: seq<RefereeEntry>
    var seGames: seq<GameRecord>

    /** A referee entry is only ever appended together with a schedule-engine game. */
    predicate Valid()
      reads this
    {
      |refereeGames| <= |seGames|
    }

    /** `MasterSchedule(id, sheet_range)`: nothing loaded, nothing collected. */
    constructor(id: string, sheetRange: string)
      ensures this.id == id && this.sheetRange == sheetRange
      ensures values == None && refereeGames == [] && seGames == []
      ensures Valid()
    {
      this.id := id;
      this.sheetRange := sheetRange;
      values := None;
      refereeGames := [];
      seGames := [];
    }

    /**
     * The storing half of `load_sheet`: a response sets `values` to its
     * 'values' entry, or to no rows when it has none; an HttpError leaves
     * `values` as it was.
     */
    method LoadSheet(response: SheetResponse)
      modifies this
      ensures response.HttpFailure? ==> values == old(values)
      ensures response.Response? && response.values.Some? ==> values == response.values
      ensures response.Response? && response.values.None? ==> values == Some([])
      ensures id == old(id) && sheetRange == old(sheetRange)
      ensures refereeGames == old(refereeGames) && seGames == old(seGames)
    {
      match response
      case HttpFailure =>
      case Response(v) =>
        values := if v.Some? then v else Some([]);
    }

    /**
     * One pass of the loop body over `row`, after the passes that appended
     * `t` to `se0` and `ref0`: the row's classification and record, appended
     * as `Step` describes; an exception leaves the lists as they were.
     */
    method ProcessOneRow(row: seq<Cell>, townTeam: string, ghost t: Run, ghost se0: seq<GameRecord>,
                         ghost ref0: seq<RefereeEntry>) returns (failure: Option<PyError>)
      requires t.failure.None?
      requires seGames == se0 + t.seGames && refereeGames == ref0 + t.refereeGames
      modifies this
      ensures failure == Step(t, row, townTeam).failure
      ensures seGames == se0 + Step(t, row, townTeam).seGames
      ensures refereeGames == ref0 + Step(t, row, townTeam).refereeGames
      ensures id == old(id) && sheetRange == old(sheetRange) && values == old(values)
    {
      var kind := Classify(row, townTeam);
      if kind.Err? {
        return Some(kind.error);
      }
      if kind.value != Skip {
        var game := ProcessRow(row);
        if game.Err? {
          return Some(game.error);
        }
        seGames := seGames + [game.value];
        if kind.value == Home {
          refereeGames := refereeGames + [RefereeOf(game.value, townTeam)];
        }
      }
      failure := None;
    }

    /**
     * `process_master_schedule(town_team)`: appends, row by row, what
     * `Process` describes. `values` still `None` makes the `for` raise
     * TypeError; an exception a row raises stops the loop and escapes, the
     * games appended before it staying in the lists.
     */
    method ProcessMasterSchedule(townTeam: string) returns (failure: Option<PyError>)
      requires Valid()
      modifies this
      ensures Valid()
      ensures old(values).None? ==> failure == Some(TypeError)
      ensures old(values).None? ==> seGames == old(seGames) && refereeGames == old(refereeGames)
      ensures old(values).Some? ==>
        var run := Process(old(values).value, townTeam);
        failure == run.failure &&
        seGames == old(seGames) + run.seGames && refereeGames == old(refereeGames) + run.refereeGames
      ensures id == old(id) && sheetRange == old(sheetRange) && values == old(values)
    {
      if values.None? {
        return Some(TypeError);
      }
      var rows := values.value;
      ghost var se0 := seGames;
      ghost var ref0 := refereeGames;
      assert Valid();
      var i := 0;
      while i < |rows|
        invariant 0 <= i <= |rows|
        invariant Process(rows[..i], townTeam).failure.None?
        invariant seGames == se0 + Process(rows[..i], townTeam).seGames
        invariant refereeGames == ref0 + Process(rows[..i], townTeam).refereeGames
        invariant id == old(id) && sheetRange == old(sheetRange) && values == old(values)
        invariant |refereeGames| <= |seGames|
        invariant |ref0| <= |se0|
      {
        ProcessPrefix(rows, i, townTeam);
        ProcessFewer(rows[..i + 1], townTeam);
        var f := ProcessOneRow(rows[i], townTeam, Process(rows[..i], townTeam), se0, ref0);
        if f.Some? {
          ProcessFailureStays(rows, i + 1, townTeam);
          return f;
        }
        i := i + 1;
      }
      assert rows[..i] == rows;
      failure := None;
    }
  }

  /** Without an earlier exception, row `k` is one more step. */
  lemma ProcessPrefix(rows: seq<seq<Cell>>, k: nat, town: string)
    requires k < |rows| && Process(rows[..k], town).failure.None?
    ensures Process(rows[..k + 1], town) == Step(Process(rows[..k], town), rows[k], town)
  {
    assert rows[..k + 1][..k] == rows[..k];
    assert rows[..k + 1][k] == rows[k];
  }

  /** Once a row raises, later rows change nothing. */
  lemma {:induction false} ProcessFailureStays(rows: seq<seq<Cell>>, k: nat, town: string)
    requires k <= |rows| && Process(rows[..k], town).failure.Some?
    ensures Process(rows, town) == Process(rows[..k], town)
    decreases |rows|
  {
    if k < |rows| {
      var init := rows[..|rows| - 1];
      assert init[..k] == rows[..k];
      ProcessFailureStays(init, k, town);
    } else {
      assert rows[..k] == rows;
    }
  }
}
