/**
 * The town-schedule grid parser `get_town_games` (schedule/referee.py and
 * schedule/helpers/town_schedule.py). A header row naming "Division",
 * "Field" and "Time" fixes which column holds the field, which the start
 * time and which column belongs to which date; every later row whose time
 * cell holds a time yields one game per date whose cell names a team, such
 * as "B - 1". An IndexError or KeyError on a row is logged and the rest of
 * that row is skipped.
 */
module TownGrid {
  import opened Options
  import opened PyText
  import opened PyDates
  import opened Cells

  /** One entry of `lookup['dates']`: a date written MM/DD/YYYY and its column. */
  datatype DateCol = DateCol(key: string, col: nat)

  /** `lookup`: the field column, the time column and the dates in insertion order. */
  datatype Lookup = Lookup(field: nat, time: nat, dates: seq<DateCol>)

  /** The keys of the dates map, in order. */
  function Keys(ds: seq<DateCol>): (ks: seq<string>)
    ensures |ks| == |ds| && forall i :: 0 <= i < |ds| ==> ks[i] == ds[i].key
  {
    seq(|ds|, i requires 0 <= i < |ds| => ds[i].key)
  }

  /** `d[key]` of the dates map. */
  function DateLookup(ds: seq<DateCol>, key: string): Option<nat>
    decreases |ds|
  {
    if ds == [] then None
    else if ds[0].key == key then Some(ds[0].col)
    else DateLookup(ds[1..], key)
  }

  /** `d[key] = col`: an existing key keeps its place and takes the new column, a new key goes last. */
  function PutDate(ds: seq<DateCol>, key: string, col: nat): seq<DateCol>
    decreases |ds|
  {
    if ds == [] then [DateCol(key, col)]
    else if ds[0].key == key then [DateCol(key, col)] + ds[1..]
    else [ds[0]] + PutDate(ds[1..], key, col)
  }

  /**
   * Assigning a date keeps every earlier key in its place, adds the key at
   * the end only when it is new, maps the key to the new column and leaves
   * the other keys' columns alone.
   */
  lemma {:induction false} PutDateMeaning(ds: seq<DateCol>, key: string, col: nat)
    ensures Keys(PutDate(ds, key, col)) == if key in Keys(ds) then Keys(ds) else Keys(ds) + [key]
    ensures DateLookup(PutDate(ds, key, col), key) == Some(col)
    ensures forall k :: k != key ==> DateLookup(PutDate(ds, key, col), k) == DateLookup(ds, k)
  {
    PutDateKeys(ds, key, col);
    PutDateLookup(ds, key, col, key);
    forall k | k != key
      ensures DateLookup(PutDate(ds, key, col), k) == DateLookup(ds, k)
    {
      PutDateLookup(ds, key, col, k);
    }
  }

  lemma {:induction false} PutDateKeys(ds: seq<DateCol>, key: string, col: nat)
    ensures Keys(PutDate(ds, key, col)) == if key in Keys(ds) then Keys(ds) else Keys(ds) + [key]
    decreases |ds|
  {
    if ds != [] {
      PutDateKeys(ds[1..], key, col);
      assert Keys(ds) == [ds[0].key] + Keys(ds[1..]);
      var r := PutDate(ds, key, col);
      if ds[0].key == key {
        assert r == [DateCol(key, col)] + ds[1..];
        assert Keys(r) == [key] + Keys(ds[1..]);
      } else {
        assert r == [ds[0]] + PutDate(ds[1..], key, col);
        assert Keys(r) == [ds[0].key] + Keys(PutDate(ds[1..], key, col));
        assert key in Keys(ds) <==> key in Keys(ds[1..]);
      }
    }
  }

  lemma {:induction false} PutDateLookup(ds: seq<DateCol>, key: string, col: nat, k: string)
    ensures DateLookup(PutDate(ds, key, col), k) == if k == key then Some(col) else DateLookup(ds, k)
    decreases |ds|
  {
    var r := PutDate(ds, key, col);
    if ds == [] {
      assert r == [DateCol(key, col)];
      assert r[1..] == [];
    } else if ds[0].key == key {
      assert r[0] == DateCol(key, col) && r[1..] == ds[1..];
    } else {
      PutDateLookup(ds[1..], key, col, k);
      assert r[0] == ds[0] && r[1..] == PutDate(ds[1..], key, col);
    }
  }

  /** A string cell whose lower-cased text contains `word`. */
  predicate Mentions(c: Cell, word: string) {
    c.Str? && Contains(Lower(c.s), word)
  }

  /** The header loop's body for the cell `c` in column `j`. */
  function ColumnUpdate(lk: Lookup, c: Cell, j: nat): Lookup {
    var lk1 := if Mentions(c, "field") then lk.(field := j) else lk;
    var lk2 := if Mentions(c, "time") then lk1.(time := j) else lk1;
    if c.DateC? then lk2.(dates := PutDate(lk2.dates, FormatMDY(c.date), j)) else lk2
  }

  /** The header loop over `row`, as a fold from the last cell backwards. */
  function ScanHeader(lk: Lookup, row: seq<Cell>): Lookup
    decreases |row|
  {
    if row == [] then lk
    else ColumnUpdate(ScanHeader(lk, row[..|row| - 1]), row[|row| - 1], |row| - 1)
  }

  /** The last column of `row` whose cell mentions `word`, or `dflt` when none does. */
  function LastMention(row: seq<Cell>, word: string, dflt: nat): (j: nat)
    ensures (exists k :: 0 <= k < |row| && Mentions(row[k], word)) ==>
      j < |row| && Mentions(row[j], word) && forall k :: j < k < |row| ==> !Mentions(row[k], word)
    ensures (forall k :: 0 <= k < |row| ==> !Mentions(row[k], word)) ==> j == dflt
    decreases |row|
  {
    if row == [] then dflt
    else if Mentions(row[|row| - 1], word) then |row| - 1
    else
      var init := row[..|row| - 1];
      assert forall k :: 0 <= k < |init| ==> init[k] == row[k];
      LastMention(init, word, dflt)
  }

  /** A date cell written `key` as MM/DD/YYYY. */
  predicate DateCellFor(c: Cell, key: string) {
    c.DateC? && FormatMDY(c.date) == key
  }

  /** The last column of `row` holding a date written `key`, or `dflt` when none does. */
  function LastDateCol(row: seq<Cell>, key: string, dflt: Option<nat>): Option<nat>
    decreases |row|
  {
    if row == [] then dflt
    else if DateCellFor(row[|row| - 1], key) then Some(|row| - 1)
    else LastDateCol(row[..|row| - 1], key, dflt)
  }

  /** With some date cell written `key`, the column found is the last of them. */
  lemma {:induction false} LastDateColFound(row: seq<Cell>, key: string, dflt: Option<nat>, k: nat)
    requires k < |row| && DateCellFor(row[k], key)
    ensures LastDateCol(row, key, dflt).Some?
    ensures var c := LastDateCol(row, key, dflt).value;
      k <= c < |row| && DateCellFor(row[c], key) && forall m :: c < m < |row| ==> !DateCellFor(row[m], key)
    decreases |row|
  {
    var n := |row| - 1;
    if !DateCellFor(row[n], key) {
      var init := row[..n];
      assert init[k] == row[k];
      LastDateColFound(init, key, dflt, k);
      var c := LastDateCol(init, key, dflt).value;
      assert LastDateCol(row, key, dflt) == LastDateCol(init, key, dflt);
      assert row[c] == init[c];
      NoLaterDate(row, init, key, c);
    }
  }

  /** A column with no later match in the row without its last cell, and a last cell that is no match, has no later match. */
  lemma NoLaterDate(row: seq<Cell>, init: seq<Cell>, key: string, c: nat)
    requires 0 < |row| && init == row[..|row| - 1] && c < |init| && !DateCellFor(row[|row| - 1], key)
    requires forall m :: c < m < |init| ==> !DateCellFor(init[m], key)
    ensures forall m :: c < m < |row| ==> !DateCellFor(row[m], key)
  {
    forall m | c < m < |row|
      ensures !DateCellFor(row[m], key)
    {
      if m < |init| {
        assert row[m] == init[m];
      }
    }
  }

  /** With no date cell written `key`, the default is kept. */
  lemma {:induction false} LastDateColNone(row: seq<Cell>, key: string, dflt: Option<nat>)
    requires forall k :: 0 <= k < |row| ==> !DateCellFor(row[k], key)
    ensures LastDateCol(row, key, dflt) == dflt
    decreases |row|
  {
    if row != [] {
      var init := row[..|row| - 1];
      forall k | 0 <= k < |init|
        ensures !DateCellFor(init[k], key)
      {
        assert init[k] == row[k];
      }
      LastDateColNone(init, key, dflt);
    }
  }

  /**
   * A header row sets the field and the time column to the last string cell
   * mentioning 'field' or 'time' (keeping the old column when none does);
   * the date map keeps all its earlier keys in order, gains the date of
   * every date cell, and maps each date to the last column holding it (a
   * date no cell holds keeps its old column, or stays absent).
   */
  lemma {:induction false} ScanHeaderMeaning(lk: Lookup, row: seq<Cell>)
    ensures ScanHeader(lk, row).field == LastMention(row, "field", lk.field)
    ensures ScanHeader(lk, row).time == LastMention(row, "time", lk.time)
    ensures Keys(lk.dates) <= Keys(ScanHeader(lk, row).dates)
    ensures forall j :: 0 <= j < |row| && row[j].DateC? ==> FormatMDY(row[j].date) in Keys(ScanHeader(lk, row).dates)
    ensures forall key :: DateLookup(ScanHeader(lk, row).dates, key) == LastDateCol(row, key, DateLookup(lk.dates, key))
  {
    ScanHeaderColumns(lk, row);
    ScanHeaderDates(lk, row);
  }

  /** After the header scan, a date maps to the last column holding it. */
  lemma {:induction false} ScanHeaderLookup(lk: Lookup, row: seq<Cell>, key: string)
    ensures DateLookup(ScanHeader(lk, row).dates, key) == LastDateCol(row, key, DateLookup(lk.dates, key))
    decreases |row|
  {
    if row != [] {
      var init := row[..|row| - 1];
      var c := row[|row| - 1];
      var j := |row| - 1;
      ScanHeaderLookup(lk, init, key);
      var before := ScanHeader(lk, init).dates;
      assert ScanHeader(lk, row).dates == if c.DateC? then PutDate(before, FormatMDY(c.date), j) else before;
      if c.DateC? {
        PutDateLookup(before, FormatMDY(c.date), j, key);
      }
      assert LastDateCol(row, key, DateLookup(lk.dates, key)) ==
        if DateCellFor(c, key) then Some(j) else LastDateCol(init, key, DateLookup(lk.dates, key));
    }
  }

  lemma {:induction false} ScanHeaderColumns(lk: Lookup, row: seq<Cell>)
    ensures ScanHeader(lk, row).field == LastMention(row, "field", lk.field)
    ensures ScanHeader(lk, row).time == LastMention(row, "time", lk.time)
    decreases |row|
  {
    if row != [] {
      var init := row[..|row| - 1];
      var c := row[|row| - 1];
      ScanHeaderColumns(lk, init);
      assert ScanHeader(lk, row) == ColumnUpdate(ScanHeader(lk, init), c, |row| - 1);
      assert LastMention(row, "field", lk.field) ==
        if Mentions(c, "field") then |row| - 1 else LastMention(init, "field", lk.field);
      assert LastMention(row, "time", lk.time) ==
        if Mentions(c, "time") then |row| - 1 else LastMention(init, "time", lk.time);
    }
  }

  lemma {:induction false} ScanHeaderDates(lk: Lookup, row: seq<Cell>)
    ensures Keys(lk.dates) <= Keys(ScanHeader(lk, row).dates)
    ensures forall j :: 0 <= j < |row| && row[j].DateC? ==> FormatMDY(row[j].date) in Keys(ScanHeader(lk, row).dates)
    ensures forall key :: DateLookup(ScanHeader(lk, row).dates, key) == LastDateCol(row, key, DateLookup(lk.dates, key))
    decreases |row|
  {
    forall key
      ensures DateLookup(ScanHeader(lk, row).dates, key) == LastDateCol(row, key, DateLookup(lk.dates, key))
    {
      ScanHeaderLookup(lk, row, key);
    }
    if row != [] {
      var init := row[..|row| - 1];
      var c := row[|row| - 1];
      ScanHeaderDates(lk, init);
      var before := Keys(ScanHeader(lk, init).dates);
      var after := Keys(ScanHeader(lk, row).dates);
      assert ScanHeader(lk, row).dates ==
        if c.DateC? then PutDate(ScanHeader(lk, init).dates, FormatMDY(c.date), |row| - 1)
        else ScanHeader(lk, init).dates;
      if c.DateC? {
        PutDateKeys(ScanHeader(lk, init).dates, FormatMDY(c.date), |row| - 1);
        assert FormatMDY(c.date) in after;
      }
      assert after == before || after == before + [after[|after| - 1]];
      forall j | 0 <= j < |row| - 1 && row[j].DateC?
        ensures FormatMDY(row[j].date) in after
      {
        assert init[j] == row[j];
        assert FormatMDY(row[j].date) in before;
      }
    }
  }

  /** `"Division" in row and "Field" in row and "Time" in row`. */
  predicate IsHeader(row: seq<Cell>) {
    Str("Division") in row && Str("Field") in row && Str("Time") in row
  }

  /** A field translation: `fields[name]` is a dictionary with 'venue' and 'sub-venue'. */
  type Fields = map<string, map<string, string>>

  /** One game of the town schedule. */
  datatype TownGame = TownGame(date: string, time: string, venue: string, subVenue: string,
                               ageGroup: string, gender: string, homeTeam: string)

  /** A string cell that is neither a 'NO GAME' nor a 'BYE'. */
  predicate Playable(c: Cell) {
    c.Str? && !Contains(c.s, "NO GAME") && !Contains(c.s, "BYE")
  }

  /** `row[lookup['time']]` exists and holds a time. */
  predicate TimeRow(row: seq<Cell>, lk: Lookup) {
    lk.time < |row| && row[lk.time].TimeC?
  }

  /** 'Boys' for a first token "B", 'Girls' otherwise. */
  function GenderOf(token: string): string {
    if Strip(token) == "B" then "Boys" else "Girls"
  }

  /** Everything a date cell needs to yield a game: a playable cell of three tokens and a translated field. */
  predicate Decodable(dc: DateCol, row: seq<Cell>, lk: Lookup, fields: Fields) {
    dc.col < |row| && Playable(row[dc.col]) && |SplitWs(row[dc.col].s)| >= 3 &&
    lk.field < |row| && row[lk.field].Str? && row[lk.field].s in fields &&
    "venue" in fields[row[lk.field].s] && "sub-venue" in fields[row[lk.field].s]
  }

  /** The game dictionary built from a decodable cell. */
  function MakeGame(dc: DateCol, row: seq<Cell>, lk: Lookup, ageGroup: string, fields: Fields, town: string)
    : (g: TownGame)
    requires TimeRow(row, lk) && Decodable(dc, row, lk, fields)
    ensures g.date == dc.key && g.ageGroup == ageGroup
  {
    var tokens := SplitWs(row[dc.col].s);
    var entry := fields[row[lk.field].s];
    TownGame(dc.key, FormatTime12(row[lk.time].time), entry["venue"], entry["sub-venue"], ageGroup,
             GenderOf(tokens[0]), Title(town) + "-" + Strip(tokens[2]))
  }

  /**
   * The inner loop's body for one date of a time row, in the order Python
   * evaluates it: the date's cell, its first token, the field's venue and
   * sub-venue, the third token. `Ok(None)` means the cell yields no game.
   */
  function CellGame(dc: DateCol, row: seq<Cell>, lk: Lookup, ageGroup: string, fields: Fields, town: string)
    : (r: Result<Option<TownGame>>)
    requires TimeRow(row, lk)
    ensures r.Ok? && r.value.None? <==> dc.col < |row| && !Playable(row[dc.col])
    ensures r.Err? ==> r.error == IndexError || r.error == KeyError
    ensures r.Ok? && r.value.Some? <==> Decodable(dc, row, lk, fields)
    ensures r.Ok? && r.value.Some? ==> r.value.value == MakeGame(dc, row, lk, ageGroup, fields, town)
  {
    if dc.col >= |row| then Err(IndexError)
    else
      var c := row[dc.col];
      if !Playable(c) then Ok(None)
      else
        var tokens := SplitWs(c.s);
        if |tokens| == 0 then Err(IndexError)
        else if lk.field >= |row| then Err(IndexError)
        else
          var name := row[lk.field];
          if !name.Str? || name.s !in fields || "venue" !in fields[name.s] then Err(KeyError)
          else if "sub-venue" !in fields[name.s] then Err(KeyError)
          else if |tokens| < 3 then Err(IndexError)
          else Ok(Some(MakeGame(dc, row, lk, ageGroup, fields, town)))
  }

  /**
   * A game from a date cell: the date is the map's key, the time is the
   * time cell as `%I:%M %p`, the venue and sub-venue come from the field's
   * translation, the gender is Boys exactly when the first token is "B",
   * and the home team is the title-cased town, '-', and the third token.
   */
  lemma CellGameFields(dc: DateCol, row: seq<Cell>, lk: Lookup, ageGroup: string, fields: Fields, town: string)
    requires TimeRow(row, lk) && Decodable(dc, row, lk, fields)
    ensures MakeGame(dc, row, lk, ageGroup, fields, town).time == FormatTime12(row[lk.time].time)
    ensures MakeGame(dc, row, lk, ageGroup, fields, town).venue == fields[row[lk.field].s]["venue"]
    ensures MakeGame(dc, row, lk, ageGroup, fields, town).subVenue == fields[row[lk.field].s]["sub-venue"]
    ensures MakeGame(dc, row, lk, ageGroup, fields, town).homeTeam == Title(town) + "-" + SplitWs(row[dc.col].s)[2]
  {
    var tokens := SplitWs(row[dc.col].s);
    var entry := fields[row[lk.field].s];
    assert MakeGame(dc, row, lk, ageGroup, fields, town) ==
      TownGame(dc.key, FormatTime12(row[lk.time].time), entry["venue"], entry["sub-venue"], ageGroup,
               GenderOf(tokens[0]), Title(town) + "-" + Strip(tokens[2]));
    StripNoSpace(tokens[2]);
  }

  /** A game's gender is Boys exactly when the cell's first token is "B", and Girls otherwise. */
  lemma GameGender(dc: DateCol, row: seq<Cell>, lk: Lookup, ageGroup: string, fields: Fields, town: string)
    requires TimeRow(row, lk) && Decodable(dc, row, lk, fields)
    ensures MakeGame(dc, row, lk, ageGroup, fields, town).gender == "Boys" <==> SplitWs(row[dc.col].s)[0] == "B"
    ensures MakeGame(dc, row, lk, ageGroup, fields, town).gender == "Girls" <==> SplitWs(row[dc.col].s)[0] != "B"
  {
    var tokens := SplitWs(row[dc.col].s);
    var g := MakeGame(dc, row, lk, ageGroup, fields, town);
    assert g.gender == GenderOf(tokens[0]);
    GenderOfToken(tokens[0]);
  }

  /** For a token without whitespace, `strip()` changes nothing, so only "B" is Boys. */
  lemma GenderOfToken(t: string)
    requires NoSpace(t)
    ensures GenderOf(t) == "Boys" <==> t == "B"
    ensures GenderOf(t) == "Girls" <==> t != "B"
  {
    StripNoSpace(t);
    assert "Girls" != "Boys" by { assert "Girls"[0] != "Boys"[0]; }
  }

  /** "B - 1" has the tokens "B", "-" and "1": the Boys' team 1. */
  lemma TokensExample(s: string)
    requires s == "B - 1"
    ensures SplitWs(s) == ["B", "-", "1"]
    ensures GenderOf(SplitWs(s)[0]) == "Boys"
  {
    assert s == "B" + " " + "-" + " " + "1";
    SplitWsThree("B", "-", "1");
    GenderOfToken("B");
  }

  /** "G - 2" is a Girls' team. */
  lemma GirlsTokenExample()
    ensures GenderOf("G") == "Girls"
  {
    GenderOfToken("G");
  }

  /** The games of one time row's dates and the exception that stopped them, if any. */
  datatype Partial = Partial(games: seq<TownGame>, fault: Option<PyError>)

  /** One pass of the dates loop: nothing after an exception, else the cell's game or exception. */
  function DateStep(p: Partial, r: Result<Option<TownGame>>): Partial {
    if p.fault.Some? then p
    else
      match r
      case Err(e) => Partial(p.games, Some(e))
      case Ok(None) => p
      case Ok(Some(g)) => Partial(p.games + [g], None)
  }

  /** The loop over the dates map for a time row, as a fold from the last date backwards. */
  function DateGames(ds: seq<DateCol>, row: seq<Cell>, lk: Lookup, ageGroup: string, fields: Fields, town: string)
    : Partial
    requires TimeRow(row, lk)
    decreases |ds|
  {
    if ds == [] then Partial([], None)
    else DateStep(DateGames(ds[..|ds| - 1], row, lk, ageGroup, fields, town),
                  CellGame(ds[|ds| - 1], row, lk, ageGroup, fields, town))
  }

  /** The dates whose cell in `row` is playable, in map order. */
  function PlayableDates(ds: seq<DateCol>, row: seq<Cell>): seq<DateCol>
    decreases |ds|
  {
    if ds == [] then []
    else
      var d := ds[|ds| - 1];
      PlayableDates(ds[..|ds| - 1], row) + (if d.col < |row| && Playable(row[d.col]) then [d] else [])
  }

  predicate GamesOfDates(games: seq<TownGame>, pds: seq<DateCol>, row: seq<Cell>, lk: Lookup,
                         ageGroup: string, fields: Fields, town: string)
    requires TimeRow(row, lk)
  {
    |games| == |pds| &&
    forall i :: 0 <= i < |pds| ==> GameOfDate(games[i], pds[i], row, lk, ageGroup, fields, town)
  }

  /** `g` is the game the decodable date column `d` of the time row reads as. */
  predicate GameOfDate(g: TownGame, d: DateCol, row: seq<Cell>, lk: Lookup, ageGroup: string, fields: Fields,
                       town: string)
    requires TimeRow(row, lk)
  {
    Decodable(d, row, lk, fields) && g == MakeGame(d, row, lk, ageGroup, fields, town)
  }

  lemma GamesOfDatesSnoc(games: seq<TownGame>, pds: seq<DateCol>, g: TownGame, d: DateCol, row: seq<Cell>,
                         lk: Lookup, ageGroup: string, fields: Fields, town: string)
    requires TimeRow(row, lk)
    requires GamesOfDates(games, pds, row, lk, ageGroup, fields, town)
    requires GameOfDate(g, d, row, lk, ageGroup, fields, town)
    ensures GamesOfDates(games + [g], pds + [d], row, lk, ageGroup, fields, town)
  {
    var gs := games + [g];
    var ps := pds + [d];
    forall i | 0 <= i < |ps|
      ensures GameOfDate(gs[i], ps[i], row, lk, ageGroup, fields, town)
    {
      if i < |pds| {
        assert ps[i] == pds[i] && gs[i] == games[i];
      } else {
        assert ps[i] == d && gs[i] == g;
      }
    }
  }

  /**
   * A time row without an error yields exactly one game per date whose
   * cell is playable, in the order of the dates map.
   */
  lemma {:induction false} DateGamesMeaning(ds: seq<DateCol>, row: seq<Cell>, lk: Lookup, ageGroup: string,
                                            fields: Fields, town: string)
    requires TimeRow(row, lk)
    requires DateGames(ds, row, lk, ageGroup, fields, town).fault.None?
    ensures GamesOfDates(DateGames(ds, row, lk, ageGroup, fields, town).games, PlayableDates(ds, row), row, lk,
                         ageGroup, fields, town)
    decreases |ds|
  {
    if ds != [] {
      var init := ds[..|ds| - 1];
      var d := ds[|ds| - 1];
      var p := DateGames(init, row, lk, ageGroup, fields, town);
      assert p.fault.None?;
      DateGamesMeaning(init, row, lk, ageGroup, fields, town);
      var r := CellGame(d, row, lk, ageGroup, fields, town);
      assert r.Ok?;
      var pds := PlayableDates(init, row);
      if r.value.None? {
        assert DateGames(ds, row, lk, ageGroup, fields, town) == p;
        assert PlayableDates(ds, row) == pds + [];
        assert pds + [] == pds;
      } else {
        var g := r.value.value;
        assert GameOfDate(g, d, row, lk, ageGroup, fields, town);
        assert DateGames(ds, row, lk, ageGroup, fields, town).games == p.games + [g];
        assert PlayableDates(ds, row) == pds + [d];
        GamesOfDatesSnoc(p.games, pds, g, d, row, lk, ageGroup, fields, town);
      }
    }
  }

  /** What the outer loop keeps: `lookup`, `found_games`, `game_times`, and the rows logged as errors. */
  datatype Scan = Scan(lookup: Lookup, found: bool, games: seq<TownGame>, faults: seq<RowFault>)

  /** A logged row: its position among the rows and the exception it raised. */
  datatype RowFault = RowFault(row: nat, error: PyError)

  function Start(): Scan {
    Scan(Lookup(0, 0, []), false, [], [])
  }

  /** The outer loop's body for the row at position `idx`. */
  function RowStep(s: Scan, row: seq<Cell>, idx: nat, ageGroup: string, fields: Fields, town: string): Scan {
    var found := s.found || IsHeader(row);
    var lk := if IsHeader(row) then ScanHeader(s.lookup, row) else s.lookup;
    if !found then Scan(lk, found, s.games, s.faults)
    else if lk.time >= |row| then Scan(lk, found, s.games, s.faults + [RowFault(idx, IndexError)])
    else if !row[lk.time].TimeC? then Scan(lk, found, s.games, s.faults)
    else
      var p := DateGames(lk.dates, row, lk, ageGroup, fields, town);
      Scan(lk, found, s.games + p.games, s.faults + if p.fault.Some? then [RowFault(idx, p.fault.value)] else [])
  }

  /** `get_town_games` over `rows`, as a fold from the last row backwards. */
  function TownGames(rows: seq<seq<Cell>>, ageGroup: string, fields: Fields, town: string): Scan
    decreases |rows|
  {
    if rows == [] then Start()
    else RowStep(TownGames(rows[..|rows| - 1], ageGroup, fields, town), rows[|rows| - 1], |rows| - 1,
                 ageGroup, fields, town)
  }

  /** Before the first header row nothing is emitted, nothing is logged and the lookup is untouched. */
  lemma {:induction false} NothingBeforeHeader(rows: seq<seq<Cell>>, ageGroup: string, fields: Fields, town: string)
    requires forall i :: 0 <= i < |rows| ==> !IsHeader(rows[i])
    ensures TownGames(rows, ageGroup, fields, town) == Start()
    decreases |rows|
  {
    if rows != [] {
      NothingBeforeHeader(rows[..|rows| - 1], ageGroup, fields, town);
    }
  }

  /**
   * The header row itself emits nothing and logs nothing: its time column
   * is the string cell mentioning 'time', which is not a time.
   */
  lemma HeaderRowEmitsNothing(s: Scan, row: seq<Cell>, idx: nat, ageGroup: string, fields: Fields, town: string)
    requires IsHeader(row)
    ensures RowStep(s, row, idx, ageGroup, fields, town).games == s.games
    ensures RowStep(s, row, idx, ageGroup, fields, town).faults == s.faults
    ensures RowStep(s, row, idx, ageGroup, fields, town).found
  {
    var j :| 0 <= j < |row| && row[j] == Str("Time");
    assert Lower("Time") == "time";
    assert Mentions(row[j], "time") by {
      assert StartsWith(Lower(row[j].s), "time");
    }
    var lk := ScanHeader(s.lookup, row);
    ScanHeaderColumns(s.lookup, row);
    assert lk.time < |row| && row[lk.time].Str?;
    assert RowStep(s, row, idx, ageGroup, fields, town) == Scan(lk, true, s.games, s.faults);
  }

  /**
   * The games and the log only ever grow: a row appends its games (those
   * before an error, when it raises one) after the earlier rows' games.
   */
  lemma TownGamesExtend(rows: seq<seq<Cell>>, row: seq<Cell>, ageGroup: string, fields: Fields, town: string)
    ensures var s := TownGames(rows, ageGroup, fields, town);
      var u := TownGames(rows + [row], ageGroup, fields, town);
      s.games <= u.games && s.faults <= u.faults && |u.faults| <= |s.faults| + 1
  {
    assert (rows + [row])[..|rows|] == rows;
  }

  /**
   * A time row yields, after the earlier games, one game per playable date
   * in map order when it raises nothing; when it raises, it yields the
   * games of the dates before the error and logs the row once.
   */
  lemma TimeRowGames(s: Scan, row: seq<Cell>, idx: nat, ageGroup: string, fields: Fields, town: string)
    requires s.found && !IsHeader(row) && TimeRow(row, s.lookup)
    ensures var u := RowStep(s, row, idx, ageGroup, fields, town);
      var p := DateGames(s.lookup.dates, row, s.lookup, ageGroup, fields, town);
      u.lookup == s.lookup && u.games == s.games + p.games &&
      (p.fault.None? ==> (u.faults == s.faults &&
         GamesOfDates(p.games, PlayableDates(s.lookup.dates, row), row, s.lookup, ageGroup, fields, town))) &&
      (p.fault.Some? ==> u.faults == s.faults + [RowFault(idx, p.fault.value)])
  {
    var p := DateGames(s.lookup.dates, row, s.lookup, ageGroup, fields, town);
    if p.fault.None? {
      DateGamesMeaning(s.lookup.dates, row, s.lookup, ageGroup, fields, town);
    }
  }

  /** A row whose time cell is not a time emits and logs nothing. */
  lemma NonTimeRowSkipped(s: Scan, row: seq<Cell>, idx: nat, ageGroup: string, fields: Fields, town: string)
    requires !IsHeader(row) && s.lookup.time < |row| && !row[s.lookup.time].TimeC?
    ensures RowStep(s, row, idx, ageGroup, fields, town) == s
  {
  }

  /** The header loop: `lookup` updated column by column. */
  method ReadHeader(lookup: Lookup, row: seq<Cell>) returns (lk: Lookup)
    ensures lk == ScanHeader(lookup, row)
  {
    lk := lookup;
    var colCnt := 0;
    while colCnt < |row|
      invariant 0 <= colCnt <= |row|
      invariant lk == ScanHeader(lookup, row[..colCnt])
    {
      assert row[..colCnt + 1][..colCnt] == row[..colCnt];
      var col := row[colCnt];
      if col.Str? {
        if Contains(Lower(col.s), "field") {
          lk := lk.(field := colCnt);
        }
        if Contains(Lower(col.s), "time") {
          lk := lk.(time := colCnt);
        }
      }
      if col.DateC? {
        lk := lk.(dates := PutDate(lk.dates, FormatMDY(col.date), colCnt));
      }
      colCnt := colCnt + 1;
    }
    assert row[..colCnt] == row;
  }

  /** The loop over `lookup['dates']` for a time row; it stops at the first IndexError or KeyError. */
  method RowGames(row: seq<Cell>, lk: Lookup, ageGroup: string, fields: Fields, town: string)
    returns (games: seq<TownGame>, fault: Option<PyError>)
    requires TimeRow(row, lk)
    ensures Partial(games, fault) == DateGames(lk.dates, row, lk, ageGroup, fields, town)
  {
    games := [];
    fault := None;
    var k := 0;
    while k < |lk.dates|
      invariant 0 <= k <= |lk.dates|
      invariant Partial(games, None) == DateGames(lk.dates[..k], row, lk, ageGroup, fields, town)
    {
      var r := CellGame(lk.dates[k], row, lk, ageGroup, fields, town);
      DateGamesPrefix(lk.dates, k, row, lk, ageGroup, fields, town);
      if r.Err? {
        fault := Some(r.error);
        DateGamesFaultStays(lk.dates, k + 1, row, lk, ageGroup, fields, town);
        return;
      }
      if r.value.Some? {
        games := games + [r.value.value];
      }
      k := k + 1;
    }
    assert lk.dates[..k] == lk.dates;
  }

  /** The dates fold over one more date of the map takes one more step. */
  lemma DateGamesPrefix(ds: seq<DateCol>, k: nat, row: seq<Cell>, lk: Lookup, ageGroup: string, fields: Fields,
                        town: string)
    requires TimeRow(row, lk) && k < |ds|
    ensures DateGames(ds[..k + 1], row, lk, ageGroup, fields, town) ==
            DateStep(DateGames(ds[..k], row, lk, ageGroup, fields, town), CellGame(ds[k], row, lk, ageGroup, fields, town))
  {
    assert ds[..k + 1][..k] == ds[..k];
    assert ds[..k + 1][k] == ds[k];
  }

  /** Once a date raises, later dates add nothing. */
  lemma {:induction false} DateGamesFaultStays(ds: seq<DateCol>, k: nat, row: seq<Cell>, lk: Lookup, ageGroup: string,
                                               fields: Fields, town: string)
    requires TimeRow(row, lk)
    requires k <= |ds| && DateGames(ds[..k], row, lk, ageGroup, fields, town).fault.Some?
    ensures DateGames(ds, row, lk, ageGroup, fields, town) == DateGames(ds[..k], row, lk, ageGroup, fields, town)
    decreases |ds|
  {
    if k < |ds| {
      var init := ds[..|ds| - 1];
      assert init[..k] == ds[..k];
      DateGamesFaultStays(init, k, row, lk, ageGroup, fields, town);
      var p := DateGames(init, row, lk, ageGroup, fields, town);
      assert p.fault.Some?;
      assert DateGames(ds, row, lk, ageGroup, fields, town) == p;
    } else {
      assert ds[..k] == ds;
    }
  }

  /** The outer loop's body for the row at position `idx`: the header scan, then the row's games. */
  method ScanRow(lookup: Lookup, foundGames: bool, gameTimes: seq<TownGame>, faults: seq<RowFault>,
                 row: seq<Cell>, idx: nat, ageGroup: string, fields: Fields, townName: string)
    returns (lookup': Lookup, foundGames': bool, gameTimes': seq<TownGame>, faults': seq<RowFault>)
    ensures Scan(lookup', foundGames', gameTimes', faults') ==
            RowStep(Scan(lookup, foundGames, gameTimes, faults), row, idx, ageGroup, fields, townName)
  {
    lookup', foundGames', gameTimes', faults' := lookup, foundGames, gameTimes, faults;
    if Str("Division") in row && Str("Field") in row && Str("Time") in row {
      foundGames' := true;
      lookup' := ReadHeader(lookup, row);
    }
    if foundGames' {
      if lookup'.time >= |row| {
        faults' := faults + [RowFault(idx, IndexError)];
      } else if row[lookup'.time].TimeC? {
        var games, fault := RowGames(row, lookup', ageGroup, fields, townName);
        gameTimes' := gameTimes + games;
        if fault.Some? {
          faults' := faults + [RowFault(idx, fault.value)];
        }
      }
    }
  }

  /**
   * `get_town_games(rows, age_group, fields, town_name)`: the games in row
   * order, and the rows whose IndexError or KeyError was logged.
   */
  method GetTownGames(rows: seq<seq<Cell>>, ageGroup: string, fields: Fields, townName: string)
    returns (gameTimes: seq<TownGame>, faults: seq<RowFault>)
    ensures gameTimes == TownGames(rows, ageGroup, fields, townName).games
    ensures faults == TownGames(rows, ageGroup, fields, townName).faults
  {
    var lookup := Lookup(0, 0, []);
    gameTimes := [];
    faults := [];
    var foundGames := false;
    var i := 0;
    while i < |rows|
      invariant 0 <= i <= |rows|
      invariant Scan(lookup, foundGames, gameTimes, faults) == TownGames(rows[..i], ageGroup, fields, townName)
    {
      assert rows[..i + 1][..i] == rows[..i];
      lookup, foundGames, gameTimes, faults := ScanRow(lookup, foundGames, gameTimes, faults, rows[i], i,
                                                       ageGroup, fields, townName);
      i := i + 1;
    }
    assert rows[..i] == rows;
  }

  /** Whether `read_town_spreadsheet` reads a sheet: visible, with a lower-cased title among the age groups. */
  predicate Selected(sheet: Sheet, ageGroups: map<string, string>) {
    Lower(sheet.title) in ageGroups && sheet.state == Visible
  }

  /** The games of every selected sheet, each labelled with its age group, in sheet order. */
  function SheetsGames(sheets: seq<Sheet>, ageGroups: map<string, string>, fields: Fields, town: string)
    : seq<TownGame>
    decreases |sheets|
  {
    if sheets == [] then []
    else
      var sheet := sheets[|sheets| - 1];
      SheetsGames(sheets[..|sheets| - 1], ageGroups, fields, town) +
      (if Selected(sheet, ageGroups) then TownGames(sheet.values, ageGroups[Lower(sheet.title)], fields, town).games
       else [])
  }

  /** Every game of a time row carries the age group it was read with. */
  lemma {:induction false} DateGamesAgeGroup(ds: seq<DateCol>, row: seq<Cell>, lk: Lookup, ageGroup: string,
                                             fields: Fields, town: string)
    requires TimeRow(row, lk)
    ensures forall g :: g in DateGames(ds, row, lk, ageGroup, fields, town).games ==> g.ageGroup == ageGroup
    decreases |ds|
  {
    if ds != [] {
      DateGamesAgeGroup(ds[..|ds| - 1], row, lk, ageGroup, fields, town);
      var r := CellGame(ds[|ds| - 1], row, lk, ageGroup, fields, town);
    }
  }

  lemma {:induction false} TownGamesAgeGroup(rows: seq<seq<Cell>>, ageGroup: string, fields: Fields, town: string)
    ensures forall g :: g in TownGames(rows, ageGroup, fields, town).games ==> g.ageGroup == ageGroup
    decreases |rows|
  {
    if rows != [] {
      var s := TownGames(rows[..|rows| - 1], ageGroup, fields, town);
      TownGamesAgeGroup(rows[..|rows| - 1], ageGroup, fields, town);
      var row := rows[|rows| - 1];
      var lk := if IsHeader(row) then ScanHeader(s.lookup, row) else s.lookup;
      if (s.found || IsHeader(row)) && lk.time < |row| && row[lk.time].TimeC? {
        DateGamesAgeGroup(lk.dates, row, lk, ageGroup, fields, town);
      }
    }
  }

  /**
   * Only selected sheets contribute, and every game is labelled with the
   * age group its sheet's lower-cased title maps to.
   */
  lemma {:induction false} SheetsGamesAgeGroups(sheets: seq<Sheet>, ageGroups: map<string, string>, fields: Fields,
                                                town: string)
    ensures forall g :: g in SheetsGames(sheets, ageGroups, fields, town) ==>
      exists i :: 0 <= i < |sheets| && Selected(sheets[i], ageGroups) && g.ageGroup == ageGroups[Lower(sheets[i].title)]
    decreases |sheets|
  {
    if sheets != [] {
      var init := sheets[..|sheets| - 1];
      var sheet := sheets[|sheets| - 1];
      SheetsGamesAgeGroups(init, ageGroups, fields, town);
      if Selected(sheet, ageGroups) {
        TownGamesAgeGroup(sheet.values, ageGroups[Lower(sheet.title)], fields, town);
      }
      forall g | g in SheetsGames(sheets, ageGroups, fields, town)
        ensures exists i :: (0 <= i < |sheets| && Selected(sheets[i], ageGroups) &&
          g.ageGroup == ageGroups[Lower(sheets[i].title)])
      {
        if g in SheetsGames(init, ageGroups, fields, town) {
          var i :| 0 <= i < |init| && Selected(init[i], ageGroups) && g.ageGroup == ageGroups[Lower(init[i].title)];
          assert sheets[i] == init[i];
        } else {
          assert sheets[|sheets| - 1] == sheet;
        }
      }
    }
  }

  /** A hidden sheet, or one whose title is not an age group, adds no games. */
  lemma UnselectedSheetAddsNothing(sheets: seq<Sheet>, sheet: Sheet, ageGroups: map<string, string>, fields: Fields,
                                   town: string)
    requires !Selected(sheet, ageGroups)
    ensures SheetsGames(sheets + [sheet], ageGroups, fields, town) == SheetsGames(sheets, ageGroups, fields, town)
  {
    assert (sheets + [sheet])[..|sheets|] == sheets;
  }

  /** `read_town_spreadsheet(file_name, town_name, fields, age_groups)` of schedule/referee.py over the workbook's sheets. */
  method ReadTownSpreadsheet(sheets: seq<Sheet>, townName: string, fields: Fields, ageGroups: map<string, string>)
    returns (gameTimes: seq<TownGame>)
    ensures gameTimes == SheetsGames(sheets, ageGroups, fields, townName)
  {
    gameTimes := [];
    var i := 0;
    while i < |sheets|
      invariant 0 <= i <= |sheets|
      invariant gameTimes == SheetsGames(sheets[..i], ageGroups, fields, townName)
    {
      assert sheets[..i + 1][..i] == sheets[..i];
      var sheet := sheets[i];
      if Lower(sheet.title) in ageGroups && sheet.state == Visible {
        var ageGroup := ageGroups[Lower(sheet.title)];
        var games, _ := GetTownGames(sheet.values, ageGroup, fields, townName);
        gameTimes := gameTimes + games;
      }
      i := i + 1;
    }
    assert sheets[..i] == sheets;
  }
}
