// The `TownSchedule` class of schedule/helpers/town_schedule.py: the town
// grid parser of TownGrid held together with the settings it reads, and a
// `game_times` list that every read of the workbook extends.

module TownScheduleClass {
  import opened PyText
  import opened Cells
  import opened TownGrid

  class TownSchedule {
    /** Field translations: a field name to its 'venue' and 'sub-venue'. */
    var fields: Fields
    var fileName: string
    var townName: string
    /** Lower-cased sheet titles to the age group their games are labelled with. */
    var ageGroups: map<string, string>
    var gameTimes: seq<TownGame>

    constructor(fileName: string, fields: Fields, townName: string, ageGroups: map<string, string>)
      ensures this.fields == fields && this.fileName == fileName
      ensures this.townName == townName && this.ageGroups == ageGroups
      ensures gameTimes == []
    {
      this.fields := fields;
      this.fileName := fileName;
      this.townName := townName;
      this.ageGroups := ageGroups;
      gameTimes := [];
    }

    /**
     * `get_town_games(rows, age_group)`: the games of one sheet, together
     * with the rows whose IndexError or KeyError was logged and swallowed.
     */
    method GetTownGames(rows: seq<seq<Cell>>, ageGroup: string)
      returns (games: seq<TownGame>, faults: seq<RowFault>)
      ensures games == TownGames(rows, ageGroup, fields, townName).games
      ensures faults == TownGames(rows, ageGroup, fields, townName).faults
    {
      games, faults := TownGrid.GetTownGames(rows, ageGroup, fields, townName);
    }

    /**
     * `read_town_spreadsheet()` over the sheets of the workbook at
     * `fileName`: the games of every visible sheet whose lower-cased title is
     * an age group are appended to `gameTimes`, after the games already there.
     */
    method ReadTownSpreadsheet(sheets: seq<Sheet>)
      modifies this
      ensures gameTimes == old(gameTimes) + SheetsGames(sheets, ageGroups, fields, townName)
      ensures old(gameTimes) <= gameTimes
      ensures fields == old(fields) && fileName == old(fileName)
      ensures townName == old(townName) && ageGroups == old(ageGroups)
    {
      var i := 0;
      while i < |sheets|
        invariant 0 <= i <= |sheets|
        invariant fields == old(fields) && fileName == old(fileName)
        invariant townName == old(townName) && ageGroups == old(ageGroups)
        invariant gameTimes == old(gameTimes) + SheetsGames(sheets[..i], ageGroups, fields, townName)
      {
        assert sheets[..i + 1][..i] == sheets[..i];
        var sheet := sheets[i];
        if Lower(sheet.title) in ageGroups && sheet.state == Visible {
          var ageGroup := ageGroups[Lower(sheet.title)];
          var games, _ := GetTownGames(sheet.values, ageGroup);
          gameTimes := gameTimes + games;
        }
        i := i + 1;
      }
      assert sheets[..i] == sheets;
    }
  }
}
