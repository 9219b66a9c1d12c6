/**
 * The older root script referee.py: `load_fields` reads the field
 * descriptions from a CSV file, `read_master_spreadsheet` keeps the master
 * rows of Hanover, and `read_town_spreadsheet` reads the town grid, where
 * every cell from column 4 on that reads like "B - 1" is a game.
 */
module LegacyReferee {
  import opened Options
  import opened PyText
  import opened PyDates
  import opened Cells

  // ---------------------------------------------------------------------
  // load_fields

  /** One line of the CSV file as `csv.DictReader` yields it: column name to value. */
  type CsvLine = map<string, string>

  predicate FieldLine(line: CsvLine) {
    "id" in line && "description" in line
  }

  predicate AllFieldLines(lines: seq<CsvLine>) {
    forall k :: 0 <= k < |lines| ==> FieldLine(lines[k])
  }

  /** The loop of `load_fields`, as a fold from the last line backwards; a missing column raises KeyError. */
  function FieldsOf(lines: seq<CsvLine>): Result<map<string, string>>
    decreases |lines|
  {
    if lines == [] then Ok(map[])
    else
      match FieldsOf(lines[..|lines| - 1])
      case Err(e) => Err(e)
      case Ok(f) =>
        var line := lines[|lines| - 1];
        if FieldLine(line) then Ok(f[line["id"] := line["description"]]) else Err(KeyError)
  }

  /** No later line of `lines` repeats the id of line `i`. */
  predicate LastWithId(lines: seq<CsvLine>, i: nat)
    requires i < |lines| && AllFieldLines(lines)
  {
    forall k :: i < k < |lines| ==> lines[k]["id"] != lines[i]["id"]
  }

  /** Loading succeeds exactly when every line has an 'id' and a 'description'. */
  lemma {:induction false} FieldsOfOk(lines: seq<CsvLine>)
    ensures FieldsOf(lines).Ok? <==> AllFieldLines(lines)
    ensures FieldsOf(lines).Err? ==> FieldsOf(lines).error == KeyError
    decreases |lines|
  {
    if lines != [] {
      var init := lines[..|lines| - 1];
      FieldsOfOk(init);
      assert forall k :: 0 <= k < |init| ==> init[k] == lines[k];
    }
  }

  /** Loading the lines before the last, then the last one, when every line has both columns. */
  lemma FieldsOfLastLine(lines: seq<CsvLine>)
    requires lines != [] && AllFieldLines(lines)
    ensures AllFieldLines(lines[..|lines| - 1])
    ensures FieldsOf(lines[..|lines| - 1]).Ok? && FieldsOf(lines).Ok?
    ensures var line := lines[|lines| - 1];
      FieldsOf(lines).value == FieldsOf(lines[..|lines| - 1]).value[line["id"] := line["description"]]
  {
    var init := lines[..|lines| - 1];
    assert forall k :: 0 <= k < |init| ==> init[k] == lines[k];
    FieldsOfOk(init);
  }

  /** The loaded map has a key for every id in the file and for nothing else. */
  lemma {:induction false} FieldsOfMeaning(lines: seq<CsvLine>)
    requires AllFieldLines(lines)
    ensures FieldsOf(lines).Ok?
    ensures forall id :: id in FieldsOf(lines).value <==> exists i :: 0 <= i < |lines| && lines[i]["id"] == id
    decreases |lines|
  {
    FieldsOfOk(lines);
    if lines != [] {
      var n := |lines|;
      var init := lines[..n - 1];
      FieldsOfLastLine(lines);
      FieldsOfMeaning(init);
      var f0 := FieldsOf(init).value;
      var f := FieldsOf(lines).value;
      forall id
        ensures id in f <==> exists i :: 0 <= i < n && lines[i]["id"] == id
      {
        if id in f0 {
          var i :| 0 <= i < |init| && init[i]["id"] == id;
          assert lines[i] == init[i];
        }
        if exists i :: 0 <= i < n && lines[i]["id"] == id {
          var i :| 0 <= i < n && lines[i]["id"] == id;
          if i < n - 1 {
            assert init[i] == lines[i];
          }
        }
      }
    }
  }

  /** Each id maps to the description on its last line: a later duplicate overwrites. */
  lemma {:induction false} FieldsOfLastWins(lines: seq<CsvLine>)
    requires AllFieldLines(lines)
    ensures FieldsOf(lines).Ok?
    ensures forall i :: 0 <= i < |lines| && LastWithId(lines, i) ==>
      lines[i]["id"] in FieldsOf(lines).value && FieldsOf(lines).value[lines[i]["id"]] == lines[i]["description"]
    decreases |lines|
  {
    FieldsOfOk(lines);
    if lines != [] {
      var n := |lines|;
      var init := lines[..n - 1];
      FieldsOfLastLine(lines);
      FieldsOfLastWins(init);
      var f := FieldsOf(lines).value;
      forall i | 0 <= i < n && LastWithId(lines, i)
        ensures lines[i]["id"] in f && f[lines[i]["id"]] == lines[i]["description"]
      {
        if i < n - 1 {
          assert init[i] == lines[i];
          assert lines[n - 1]["id"] != lines[i]["id"];
          forall k | i < k < |init|
            ensures init[k]["id"] != init[i]["id"]
          {
            assert init[k] == lines[k];
          }
          assert LastWithId(init, i);
        }
      }
    }
  }

  /** Once a line raises, the exception escapes whatever lines follow. */
  lemma {:induction false} FieldsOfErrStays(lines: seq<CsvLine>, k: nat)
    requires k <= |lines| && FieldsOf(lines[..k]).Err?
    ensures FieldsOf(lines) == FieldsOf(lines[..k])
    decreases |lines|
  {
    if k < |lines| {
      var init := lines[..|lines| - 1];
      assert init[..k] == lines[..k];
      FieldsOfErrStays(init, k);
    } else {
      assert lines[..k] == lines;
    }
  }

  /** `load_fields(file_name)` over the lines of the parsed CSV file. */
  method LoadFields(lines: seq<CsvLine>) returns (r: Result<map<string, string>>)
    ensures r == FieldsOf(lines)
  {
    var fields: map<string, string> := map[];
    var i := 0;
    while i < |lines|
      invariant 0 <= i <= |lines|
      invariant FieldsOf(lines[..i]) == Ok(fields)
    {
      assert lines[..i + 1][..i] == lines[..i];
      var line := lines[i];
      if !("id" in line && "description" in line) {
        FieldsOfErrStays(lines, i + 1);
        return Err(KeyError);
      }
      fields := fields[line["id"] := line["description"]];
      i := i + 1;
    }
    assert lines[..i] == lines;
    r := Ok(fields);
  }

  // ---------------------------------------------------------------------
  // read_master_spreadsheet

  /** The record the master loop appends; the six crew fields are always blank. */
  datatype LegacyGame = LegacyGame(gameNbr: string, gameLevel: string, gameDescription: string, crewSize: string,
                                   crewDescription: string, notes: string, gender: string, ageGroup: string,
                                   date: Cell, homeTeam: string, awayTeam: string)

  /** `int(c)`: a number as it is, a string parsed as a decimal integer. */
  function IntOf(c: Cell): Result<int> {
    match c
    case IntC(n) => Ok(n)
    case Str(s) => if ParseInt(s).Some? then Ok(ParseInt(s).value) else Err(ValueError)
    case _ => Err(TypeError)
  }

  /** `f"{name.upper()}-{int(number)}"` */
  function TeamText(name: string, number: int): string {
    Upper(name) + "-" + IntToStr(number)
  }

  /** A row the loop keeps: 'hanover' occurs in its lower-cased column 3. */
  predicate Kept(row: seq<Cell>) {
    |row| > 3 && row[3].Str? && Contains(Lower(row[3].s), "hanover")
  }

  /** A kept row from which the record can be built without an exception. */
  predicate Buildable(row: seq<Cell>) {
    Kept(row) && row[0].Str? && SplitWs(row[0].s) != [] && |row| > 6 &&
    IntOf(row[4]).Ok? && row[5].Str? && IntOf(row[6]).Ok?
  }

  /** The last whitespace-separated token of column 0, `value[0].split()[-1]`. */
  function LastToken(row: seq<Cell>): (t: string)
    requires Buildable(row)
    ensures |t| > 0
  {
    var tokens := SplitWs(row[0].s);
    tokens[|tokens| - 1]
  }

  /**
   * One pass of the master loop: `Ok(None)` for a row that is not kept,
   * the record for a kept row, `Err` for the exception the row raises.
   */
  function MasterRowGame(value: seq<Cell>): (r: Result<Option<LegacyGame>>)
    ensures r == Ok(None) <==> |value| > 3 && value[3].Str? && !Contains(Lower(value[3].s), "hanover")
    ensures (r.Ok? && r.value.Some?) <==> Buildable(value)
  {
    match CellAt(value, 3)
    case Err(e) => Err(e)
    case Ok(c3) =>
      match CellLower(c3)
      case Err(e) => Err(e)
      case Ok(l3) =>
        if !Contains(l3, "hanover") then Ok(None)
        else if !value[0].Str? then Err(AttributeError)
        else
          var tokens := SplitWs(value[0].s);
          if tokens == [] then Err(IndexError)
          else
            var gender := tokens[|tokens| - 1];
            var ageGroup := RStrip(Replace(value[0].s, gender, ""));
            if |value| <= 4 then Err(IndexError)
            else
              match IntOf(value[4])
              case Err(e) => Err(e)
              case Ok(home) =>
                if |value| <= 5 then Err(IndexError)
                else if !value[5].Str? then Err(AttributeError)
                else if |value| <= 6 then Err(IndexError)
                else
                  match IntOf(value[6])
                  case Err(e) => Err(e)
                  case Ok(away) =>
                    Ok(Some(LegacyGame("", "", "", "", "", "", gender[..1], ageGroup, value[2],
                                       TeamText(c3.s, home), TeamText(value[5].s, away))))
  }

  /**
   * A kept row's record: the gender is the first letter of the last token
   * of column 0, the age group is column 0 with that token removed and the
   * trailing whitespace stripped, the date is column 2 as it is, the teams
   * are the upper-cased names with their numbers, and the crew fields are blank.
   */
  lemma MasterRowFields(row: seq<Cell>)
    requires Buildable(row)
    ensures MasterRowGame(row).Ok? && MasterRowGame(row).value.Some?
    ensures var g := MasterRowGame(row).value.value;
      g.gender == [LastToken(row)[0]] &&
      g.ageGroup == RStrip(Replace(row[0].s, LastToken(row), "")) &&
      g.date == row[2]
    ensures var g := MasterRowGame(row).value.value;
      g.homeTeam == Upper(row[3].s) + "-" + IntToStr(IntOf(row[4]).value) &&
      g.awayTeam == Upper(row[5].s) + "-" + IntToStr(IntOf(row[6]).value)
    ensures var g := MasterRowGame(row).value.value;
      g.gameNbr == "" && g.gameLevel == "" && g.gameDescription == "" &&
      g.crewSize == "" && g.crewDescription == "" && g.notes == ""
  {
    var t := LastToken(row);
    assert t[..1] == [t[0]];
  }

  /** "Grade 3/4 Boys" in column 0 has "Boys" as its last token ... */
  lemma LegacyLabelTokens(text: string)
    requires text == "Grade 3/4 Boys"
    ensures SplitWs(text) == ["Grade", "3/4", "Boys"]
  {
    assert text == "Grade" + " " + "3/4" + " " + "Boys";
    SplitWsThree("Grade", "3/4", "Boys");
  }

  /** ... so the record's age group is "Grade 3/4" (and its gender "B"). */
  lemma LegacyLabelAgeGroup(text: string, head: string)
    requires text == "Grade 3/4 Boys" && head == "Grade 3/4 "
    ensures RStrip(Replace(text, "Boys", "")) == "Grade 3/4"
  {
    assert text == head + "Boys";
    LegacyLabelHead(head, "Boys");
    ReplaceUntouched(head, "Boys");
    LegacyLabelStrip(head, "Grade 3/4");
  }

  lemma LegacyLabelHead(head: string, pat: string)
    requires head == "Grade 3/4 " && pat == "Boys"
    ensures forall i :: 0 <= i < |head| ==> head[i] !in pat
  {
  }

  lemma LegacyLabelStrip(head: string, grade: string)
    requires head == "Grade 3/4 " && grade == "Grade 3/4"
    ensures RStrip(head) == grade
  {
    assert head[|head| - 1] == ' ' && head[..|head| - 1] == grade;
    assert RStrip(grade) == grade;
  }

  /** Replacing a pattern that occurs only at the very end removes just that occurrence. */
  lemma {:induction false} ReplaceUntouched(head: string, pat: string)
    requires |pat| > 0
    requires forall i :: 0 <= i < |head| ==> head[i] !in pat
    ensures Replace(head + pat, pat, "") == head
    decreases |head|
  {
    var s := head + pat;
    if head == [] {
      assert s == pat && s[|pat|..] == [];
    } else {
      assert s[..|pat|] != pat by { assert s[0] == head[0] && head[0] !in pat; }
      assert s[1..] == head[1..] + pat;
      ReplaceUntouched(head[1..], pat);
      assert [s[0]] + head[1..] == head;
    }
  }

  /** One pass of a collecting loop: an exception ends it, a found record is appended. */
  function CollectStep<T>(acc: Result<seq<T>>, r: Result<Option<T>>): Result<seq<T>> {
    match acc
    case Err(e) => Err(e)
    case Ok(games) =>
      match r
      case Err(e) => Err(e)
      case Ok(g) => if g.Some? then Ok(games + [g.value]) else Ok(games)
  }

  /** The loop of `read_master_spreadsheet`, as a fold from the last row backwards. */
  function MasterGames(rows: seq<seq<Cell>>): Result<seq<LegacyGame>>
    decreases |rows|
  {
    if rows == [] then Ok([])
    else CollectStep(MasterGames(rows[..|rows| - 1]), MasterRowGame(rows[|rows| - 1]))
  }

  /** The kept rows, in order. */
  function KeptRows(rows: seq<seq<Cell>>): seq<seq<Cell>>
    decreases |rows|
  {
    if rows == [] then []
    else KeptRows(rows[..|rows| - 1]) + (if Kept(rows[|rows| - 1]) then [rows[|rows| - 1]] else [])
  }

  /** `games` holds the record of each row of `ks`, in order. */
  predicate GamesOfKept(games: seq<LegacyGame>, ks: seq<seq<Cell>>) {
    |games| == |ks| && forall i :: 0 <= i < |ks| ==> MasterRowGame(ks[i]) == Ok(Some(games[i]))
  }

  lemma GamesOfKeptSnoc(games: seq<LegacyGame>, ks: seq<seq<Cell>>, g: LegacyGame, row: seq<Cell>)
    requires GamesOfKept(games, ks) && MasterRowGame(row) == Ok(Some(g))
    ensures GamesOfKept(games + [g], ks + [row])
  {
    var gs := games + [g];
    var rs := ks + [row];
    forall i | 0 <= i < |rs|
      ensures MasterRowGame(rs[i]) == Ok(Some(gs[i]))
    {
      if i < |ks| {
        assert rs[i] == ks[i] && gs[i] == games[i];
      } else {
        assert rs[i] == row && gs[i] == g;
      }
    }
  }

  /**
   * When no row raises, there is exactly one record per kept row, in row
   * order: a row is kept if and only if 'hanover' occurs in its column 3.
   */
  lemma {:induction false} MasterGamesMeaning(rows: seq<seq<Cell>>)
    requires MasterGames(rows).Ok?
    ensures GamesOfKept(MasterGames(rows).value, KeptRows(rows))
    decreases |rows|
  {
    if rows != [] {
      var init := rows[..|rows| - 1];
      var row := rows[|rows| - 1];
      var acc := MasterGames(init);
      var r := MasterRowGame(row);
      assert MasterGames(rows) == CollectStep(acc, r);
      assert acc.Ok? && r.Ok?;
      MasterGamesMeaning(init);
      var gs := acc.value;
      if r.value.Some? {
        assert Kept(row);
        assert MasterGames(rows).value == gs + [r.value.value];
        assert KeptRows(rows) == KeptRows(init) + [row];
        GamesOfKeptSnoc(gs, KeptRows(init), r.value.value, row);
      } else {
        assert !Kept(row);
        assert MasterGames(rows).value == gs;
        assert KeptRows(rows) == KeptRows(init) + [];
        assert KeptRows(init) + [] == KeptRows(init);
      }
    }
  }

  lemma {:induction false} MasterGamesErrStays(rows: seq<seq<Cell>>, k: nat)
    requires k <= |rows| && MasterGames(rows[..k]).Err?
    ensures MasterGames(rows) == MasterGames(rows[..k])
    decreases |rows|
  {
    if k < |rows| {
      var init := rows[..|rows| - 1];
      assert init[..k] == rows[..k];
      MasterGamesErrStays(init, k);
    } else {
      assert rows[..k] == rows;
    }
  }

  lemma MasterGamesPrefix(rows: seq<seq<Cell>>, k: nat)
    requires k < |rows|
    ensures MasterGames(rows[..k + 1]) == CollectStep(MasterGames(rows[..k]), MasterRowGame(rows[k]))
  {
    assert rows[..k + 1][..k] == rows[..k];
    assert rows[..k + 1][k] == rows[k];
  }

  /** `read_master_spreadsheet(file_name)` over the values of the workbook's third sheet. */
  method ReadMasterSpreadsheet(rows: seq<seq<Cell>>) returns (r: Result<seq<LegacyGame>>)
    ensures r == MasterGames(rows)
  {
    var games: seq<LegacyGame> := [];
    var i := 0;
    while i < |rows|
      invariant 0 <= i <= |rows|
      invariant MasterGames(rows[..i]) == Ok(games)
    {
      MasterGamesPrefix(rows, i);
      var g := MasterRowGame(rows[i]);
      if g.Err? {
        MasterGamesErrStays(rows, i + 1);
        return Err(g.error);
      }
      if g.value.Some? {
        games := games + [g.value.value];
      }
      i := i + 1;
    }
    assert rows[..i] == rows;
    r := Ok(games);
  }

  // ---------------------------------------------------------------------
  // read_town_spreadsheet

  /** The first grid column that can hold games. */
  const ColStart: nat := 4

  /** `re.fullmatch('[A-Z,a-z] - [1-9]', s)`: the character class admits a comma too. */
  predicate GameCode(s: string) {
    |s| == 5 && (IsLetter(s[0]) || s[0] == ',') && s[1..4] == " - " && '1' <= s[4] <= '9'
  }

  /** A matching cell splits on ' - ' into its letter and its digit. */
  lemma GameCodeSplit(s: string)
    requires GameCode(s)
    ensures SplitOn(s, " - ") == [[s[0]], [s[4]]]
  {
    assert s[..3] != " - " by { assert s[..3][0] == s[0]; }
    var t := s[1..];
    assert t[..3] == " - ";
    assert t[3..] == [s[4]];
    assert SplitOn([s[4]], " - ") == [[s[4]]];
    assert SplitOn(t, " - ") == [""] + [[s[4]]];
    assert SplitOn(s, " - ") == [[s[0]] + ""] + [[s[4]]];
    assert [s[0]] + "" == [s[0]];
  }

  /** "B - 1" is a game of gender B and team 1; the comma is accepted too, but not a zero. */
  lemma GameCodeExample(s: string, t: string)
    requires s == "B - 1" && t == "B - 0"
    ensures GameCode(s) && SplitOn(s, " - ") == ["B", "1"]
    ensures GameCode(", - 9") && !GameCode(t) && !GameCode("Bo - 1")
  {
    GameCodeSplit(s);
  }

  /** The record the town loop appends. */
  datatype LegacyTownGame = LegacyTownGame(date: Cell, time: Cell, location: string, ageGroup: Cell, gender: string,
                                           homeTeam: string)

  /** Column `col` of `row` holds a game whose field (column 1) is known. */
  predicate GameCell(row: seq<Cell>, col: nat, fields: map<string, string>) {
    ColStart <= col < |row| && row[col].Str? && GameCode(row[col].s) && row[1].Str? && row[1].s in fields
  }

  /**
   * The game of a matching cell, read off the cell's characters: the
   * column header is the date, column 2 the time, column 1's description
   * the location, column 0 the age group, the letter the gender and the
   * digit the team number.
   */
  function GameAt(columns: seq<Cell>, row: seq<Cell>, col: nat, town: string, fields: map<string, string>)
    : LegacyTownGame
    requires col < |columns| && GameCell(row, col, fields)
  {
    LegacyTownGame(columns[col], row[2], fields[row[1].s], row[0], [row[col].s[0]], town + "-" + [row[col].s[4]])
  }

  /**
   * One pass of the inner loop, for column `col`: nothing for a missing
   * value or a string that does not match, the game for a matching one;
   * `re.fullmatch` of any other value raises TypeError, a short row
   * IndexError and an unknown field KeyError.
   */
  function CellGame(columns: seq<Cell>, row: seq<Cell>, col: nat, town: string, fields: map<string, string>)
    : (r: Result<Option<LegacyTownGame>>)
    requires ColStart <= col < |columns|
    ensures r == Ok(None) <==> col < |row| && (row[col].Empty? || (row[col].Str? && !GameCode(row[col].s)))
    ensures (r.Ok? && r.value.Some?) <==> GameCell(row, col, fields)
    ensures GameCell(row, col, fields) ==> r == Ok(Some(GameAt(columns, row, col, town, fields)))
    ensures r.Err? ==> r.error in {IndexError, TypeError, KeyError}
  {
    if col >= |row| then Err(IndexError)
    else
      match row[col]
      case Empty => Ok(None)
      case Str(s) =>
        if !GameCode(s) then Ok(None)
        else
          GameCodeSplit(s);
          var splitField := SplitOn(s, " - ");
          if row[1].Str? && row[1].s in fields then
            Ok(Some(LegacyTownGame(columns[col], row[2], fields[row[1].s], row[0], splitField[0],
                                   town + "-" + splitField[1])))
          else Err(KeyError)
      case _ => Err(TypeError)
  }

  /** The inner loop over columns `ColStart .. n - 1` of one row, as a fold from the last column backwards. */
  function RowGames(columns: seq<Cell>, row: seq<Cell>, n: nat, town: string, fields: map<string, string>)
    : Result<seq<LegacyTownGame>>
    requires n <= |columns|
    decreases n
  {
    if n <= ColStart then Ok([])
    else
      CollectStep(RowGames(columns, row, n - 1, town, fields), CellGame(columns, row, n - 1, town, fields))
  }

  /** The columns `ColStart .. n - 1` of `row` that hold a game, in order. */
  function GameCols(row: seq<Cell>, n: nat, fields: map<string, string>): (cs: seq<nat>)
    ensures forall k :: 0 <= k < |cs| ==> ColStart <= cs[k] < n && GameCell(row, cs[k], fields)
    decreases n
  {
    if n <= ColStart then []
    else GameCols(row, n - 1, fields) + (if GameCell(row, n - 1, fields) then [n - 1] else [])
  }

  /** `games` holds, in order, the game of each column of `cs`. */
  predicate GamesAtCols(games: seq<LegacyTownGame>, cs: seq<nat>, columns: seq<Cell>, row: seq<Cell>, town: string,
                        fields: map<string, string>)
  {
    |games| == |cs| && forall k :: 0 <= k < |cs| ==> GameAtCol(games[k], cs[k], columns, row, town, fields)
  }

  /** `g` is the game of the matching cell in column `col`. */
  predicate GameAtCol(g: LegacyTownGame, col: nat, columns: seq<Cell>, row: seq<Cell>, town: string,
                      fields: map<string, string>)
  {
    col < |columns| && GameCell(row, col, fields) && g == GameAt(columns, row, col, town, fields)
  }

  lemma GamesAtColsSnoc(games: seq<LegacyTownGame>, cs: seq<nat>, g: LegacyTownGame, col: nat, columns: seq<Cell>,
                        row: seq<Cell>, town: string, fields: map<string, string>)
    requires GamesAtCols(games, cs, columns, row, town, fields) && GameAtCol(g, col, columns, row, town, fields)
    ensures GamesAtCols(games + [g], cs + [col], columns, row, town, fields)
  {
    var gs := games + [g];
    var ks := cs + [col];
    forall k | 0 <= k < |ks|
      ensures GameAtCol(gs[k], ks[k], columns, row, town, fields)
    {
      if k < |cs| {
        assert ks[k] == cs[k] && gs[k] == games[k];
      } else {
        assert ks[k] == col && gs[k] == g;
      }
    }
  }

  /**
   * When no cell raises, a row yields exactly one game per matching cell
   * from column 4 on, in column order.
   */
  lemma {:induction false} RowGamesMeaning(columns: seq<Cell>, row: seq<Cell>, n: nat, town: string,
                                           fields: map<string, string>)
    requires n <= |columns| && RowGames(columns, row, n, town, fields).Ok?
    ensures GamesAtCols(RowGames(columns, row, n, town, fields).value, GameCols(row, n, fields), columns, row, town,
                        fields)
    decreases n
  {
    if n > ColStart {
      var acc := RowGames(columns, row, n - 1, town, fields);
      var r := CellGame(columns, row, n - 1, town, fields);
      assert RowGames(columns, row, n, town, fields) == CollectStep(acc, r);
      assert acc.Ok? && r.Ok?;
      RowGamesMeaning(columns, row, n - 1, town, fields);
      var gs := acc.value;
      var cs := GameCols(row, n - 1, fields);
      if r.value.Some? {
        assert RowGames(columns, row, n, town, fields).value == gs + [r.value.value];
        assert GameCols(row, n, fields) == cs + [n - 1];
        assert GameAtCol(r.value.value, n - 1, columns, row, town, fields);
        GamesAtColsSnoc(gs, cs, r.value.value, n - 1, columns, row, town, fields);
      } else {
        assert RowGames(columns, row, n, town, fields).value == gs;
        assert GameCols(row, n, fields) == cs + [];
        assert cs + [] == cs;
      }
    }
  }

  lemma {:induction false} RowGamesErrStays(columns: seq<Cell>, row: seq<Cell>, k: nat, n: nat, town: string,
                                            fields: map<string, string>)
    requires k <= n <= |columns| && RowGames(columns, row, k, town, fields).Err?
    ensures RowGames(columns, row, n, town, fields) == RowGames(columns, row, k, town, fields)
    decreases n
  {
    if k < n {
      RowGamesErrStays(columns, row, k, n - 1, town, fields);
    }
  }

  /** The outer loop over the grid rows, as a fold from the last row backwards. */
  function SheetGames(columns: seq<Cell>, rows: seq<seq<Cell>>, town: string, fields: map<string, string>)
    : Result<seq<LegacyTownGame>>
    decreases |rows|
  {
    if rows == [] then Ok([])
    else
      match SheetGames(columns, rows[..|rows| - 1], town, fields)
      case Err(e) => Err(e)
      case Ok(games) =>
        match RowGames(columns, rows[|rows| - 1], |columns|, town, fields)
        case Err(e) => Err(e)
        case Ok(rowGames) => Ok(games + rowGames)
  }

  lemma {:induction false} SheetGamesErrStays(columns: seq<Cell>, rows: seq<seq<Cell>>, k: nat, town: string,
                                              fields: map<string, string>)
    requires k <= |rows| && SheetGames(columns, rows[..k], town, fields).Err?
    ensures SheetGames(columns, rows, town, fields) == SheetGames(columns, rows[..k], town, fields)
    decreases |rows|
  {
    if k < |rows| {
      var init := rows[..|rows| - 1];
      assert init[..k] == rows[..k];
      SheetGamesErrStays(columns, init, k, town, fields);
    } else {
      assert rows[..k] == rows;
    }
  }

  /** A grid with at most four columns has no game column, so no row yields a game. */
  lemma {:induction false} NarrowSheetNoGames(columns: seq<Cell>, rows: seq<seq<Cell>>, town: string,
                                              fields: map<string, string>)
    requires |columns| <= ColStart
    ensures SheetGames(columns, rows, town, fields) == Ok([])
    decreases |rows|
  {
    if rows != [] {
      NarrowSheetNoGames(columns, rows[..|rows| - 1], town, fields);
      assert RowGames(columns, rows[|rows| - 1], |columns|, town, fields) == Ok([]);
      assert SheetGames(columns, rows[..|rows| - 1], town, fields) == Ok([]);
      var none: seq<LegacyTownGame> := [];
      assert none + none == none;
    }
  }

  /** A column header that `strptime(header, '%Y-%m-%d')` accepts. */
  predicate ValidHeader(c: Cell) {
    c.Str? && StrptimeYMD(c.s).Some?
  }

  /** A line the header check prints. */
  datatype Printed = InvalidHeading(heading: Cell) | PleaseCorrect

  /** The text of a printed line. */
  function PrintedText(p: Printed): string {
    match p
    case InvalidHeading(c) => CellText(c) + " is invalid, Needs to be formatted as 'YYYY-MM-DD'"
    case PleaseCorrect => "Please correct, and run this again"
  }

  /** What the header check prints for one column heading: nothing, or two lines when it does not parse. */
  function HeaderLines(c: Cell): (ls: seq<Printed>)
    ensures |ls| == (if ValidHeader(c) then 0 else 2)
  {
    if ValidHeader(c) then [] else [InvalidHeading(c), PleaseCorrect]
  }

  /** What the header check prints for columns `ColStart .. n - 1`. */
  function HeaderOutput(columns: seq<Cell>, n: nat): seq<Printed>
    requires n <= |columns|
    decreases n
  {
    if n <= ColStart then []
    else HeaderOutput(columns, n - 1) + HeaderLines(columns[n - 1])
  }

  /** Every column from `ColStart` up to `n - 1` has a valid heading. */
  predicate HeadersValid(columns: seq<Cell>, n: nat)
    requires n <= |columns|
  {
    forall c :: ColStart <= c < n ==> ValidHeader(columns[c])
  }

  /**
   * The header check prints nothing exactly when every date column heading
   * parses as YYYY-MM-DD.
   */
  lemma {:induction false} HeaderOutputEmpty(columns: seq<Cell>, n: nat)
    requires n <= |columns|
    ensures HeaderOutput(columns, n) == [] <==> HeadersValid(columns, n)
    decreases n
  {
    if n > ColStart {
      HeaderOutputEmpty(columns, n - 1);
      var prev := HeaderOutput(columns, n - 1);
      var last := HeaderLines(columns[n - 1]);
      assert HeaderOutput(columns, n) == prev + last;
      assert prev + last == [] <==> prev == [] && last == [];
      HeadersValidSnoc(columns, n);
    }
  }

  lemma HeadersValidSnoc(columns: seq<Cell>, n: nat)
    requires ColStart < n <= |columns|
    ensures HeadersValid(columns, n) <==> HeadersValid(columns, n - 1) && ValidHeader(columns[n - 1])
  {
    if HeadersValid(columns, n - 1) && ValidHeader(columns[n - 1]) {
      forall c | ColStart <= c < n
        ensures ValidHeader(columns[c])
      {
        if c < n - 1 {
          assert ColStart <= c < n - 1;
        }
      }
    }
  }

  /** The header check prints its lines in pairs, an even number in all. */
  lemma {:induction false} HeaderOutputEven(columns: seq<Cell>, n: nat)
    requires n <= |columns|
    ensures |HeaderOutput(columns, n)| % 2 == 0
    decreases n
  {
    if n > ColStart {
      HeaderOutputEven(columns, n - 1);
      var prev := HeaderOutput(columns, n - 1);
      var last := HeaderLines(columns[n - 1]);
      assert HeaderOutput(columns, n) == prev + last;
      assert |prev + last| == |prev| + |last|;
    }
  }

  /** The first loop of `read_town_spreadsheet`: the date check of the column headers from column 4 on. */
  method CheckHeaders(columns: seq<Cell>) returns (output: seq<Printed>)
    ensures output == HeaderOutput(columns, |columns|)
  {
    output := [];
    var col := if |columns| < ColStart then |columns| else ColStart;
    while col < |columns|
      invariant col <= |columns|
      invariant output == HeaderOutput(columns, col)
    {
      if !(columns[col].Str? && StrptimeYMD(columns[col].s).Some?) {
        output := output + [InvalidHeading(columns[col]), PleaseCorrect];
      }
      col := col + 1;
    }
  }

  /** The inner loop of `read_town_spreadsheet` over one row's cells from column 4 on. */
  method RowGameTimes(columns: seq<Cell>, row: seq<Cell>, townName: string, fields: map<string, string>)
    returns (r: Result<seq<LegacyTownGame>>)
    ensures r == RowGames(columns, row, |columns|, townName, fields)
  {
    var games: seq<LegacyTownGame> := [];
    var col := if |columns| < ColStart then |columns| else ColStart;
    while col < |columns|
      invariant col <= |columns| && (col < ColStart ==> col == |columns|)
      invariant RowGames(columns, row, col, townName, fields) == Ok(games)
    {
      var g := CellGame(columns, row, col, townName, fields);
      if g.Err? {
        RowGamesErrStays(columns, row, col + 1, |columns|, townName, fields);
        return Err(g.error);
      }
      if g.value.Some? {
        games := games + [g.value.value];
      }
      col := col + 1;
    }
    r := Ok(games);
  }

  /**
   * `read_town_spreadsheet(town_name, file_name, fields)` over the column
   * headers and values of the workbook's ninth sheet. The header check only
   * prints: the games do not depend on it.
   */
  method ReadTownSpreadsheet(townName: string, columns: seq<Cell>, rows: seq<seq<Cell>>, fields: map<string, string>)
    returns (r: Result<seq<LegacyTownGame>>, output: seq<Printed>)
    ensures output == HeaderOutput(columns, |columns|)
    ensures r == SheetGames(columns, rows, townName, fields)
  {
    output := CheckHeaders(columns);
    var gameTimes: seq<LegacyTownGame> := [];
    var i := 0;
    while i < |rows|
      invariant 0 <= i <= |rows|
      invariant SheetGames(columns, rows[..i], townName, fields) == Ok(gameTimes)
    {
      assert rows[..i + 1][..i] == rows[..i];
      var rowGames := RowGameTimes(columns, rows[i], townName, fields);
      if rowGames.Err? {
        SheetGamesErrStays(columns, rows, i + 1, townName, fields);
        return Err(rowGames.error), output;
      }
      gameTimes := gameTimes + rowGames.value;
      i := i + 1;
    }
    assert rows[..i] == rows;
    r := Ok(gameTimes);
  }
}
