# Referee schedule builder — a Dafny model

The referee schedule builder reads two spreadsheets, the league's master schedule and a town's own
home schedule, and writes a CSV of games for the referee-assignment site. The reading and writing
are library I/O. This project models the row and cell processing in between:

- **Master-schedule rows.** A division label such as "Grade 3/4 Boys" is split into a gender and an
  age group. A row becomes a game record, with an MM/DD/YYYY date and "Team-N" team labels. A town
  filter sorts rows into referee games (the town plays at home) and schedule-engine games (the town
  plays at home or away). There are three variants: `schedule/referee.py`, the `MasterSchedule`
  class of `schedule/helpers/master_schedule.py` (Google Sheets rows, M/D/YY dates, byes skipped),
  and the older root `referee.py` (hard-coded "hanover", one-letter gender).
- **The town-schedule grid** (`get_town_games`). A header row containing "Division", "Field" and
  "Time" maps columns to their meaning, including a date-to-column map. Each later row whose time
  cell holds a time is decoded cell by cell: "B - 1" is the Boys' team 1 of the town. An IndexError
  or KeyError on a row is logged and the row's remaining cells are skipped. The `TownSchedule` class
  holds the same parser and accumulates `game_times`. Root `referee.py` has a regular-expression
  variant.
- **The join** of town games with referee games on age group, date, gender and home team.
- **Argument and environment validation.** There are three `get_arguments` (over a model of
  Python's `getopt`, return codes 0/77/88/99) and `get_environment` (required versus defaulted
  variables, return code 66).
- **Availability shaping** in `assignr/availability.py`: response records become "ALL DAY" or
  "start - end" slots, and CSV rows become referees.

Modules:

| module | models |
|---|---|
| `Options`, `Cells` | Option and Result values, Python exceptions as `PyError`, spreadsheet cells (`Str`, `DateC`, `TimeC`, `IntC`, `Empty`), sheets, log lines |
| `PyText` | the `str` operations used: `split()`, `split(sep)`, `join`, `lower`/`upper`/`title` (ASCII), `strip`, `replace`, `in`, `int()`/`str()` |
| `PyDates` | `strptime`/`strftime` with `%m/%d/%Y`, `%m/%d/%y`, `%Y-%m-%d` and `%I:%M %p` |
| `PyGetopt` | Python's `getopt.getopt` for the option tables the scripts declare |
| `RefereeMaster`, `TownGrid`, `ScheduleJoin`, `RefereeArguments` | `schedule/referee.py` |
| `TownScheduleClass` | `schedule/helpers/town_schedule.py` |
| `MasterScheduleSheet` | `schedule/helpers/master_schedule.py` |
| `ScheduleUtils` | `schedule/helpers/utils.py` |
| `LegacyReferee` | root `referee.py` |
| `Availability` | `assignr/availability.py` |

Python exceptions that escape a function are `Err` values of a `Result`; exceptions the code catches
are modelled where they are caught. Exceptions are raised in the order the code evaluates its
expressions. Loops over rows become `method`s with `while` loops. Each loop is proved equal to a fold
function, and lemmas state what the fold means. The two classes whose fields the code updates,
`MasterSchedule` and `TownSchedule`, are Dafny classes.

## Model

| member | source | states |
|---|---|---|
| Cells.CellLower | schedule/referee.py:61 | `.lower()` succeeds exactly on a string cell, giving a text of the same length with no upper-case ASCII letter; any other cell raises AttributeError |
| PyText.Lower | schedule/referee.py:61 | lower-casing keeps the length and leaves no upper-case ASCII letter |
| PyText.LowerIdempotent | schedule/referee.py:176 | lower-casing an already lower-cased town changes nothing |
| PyText.SplitWs | schedule/referee.py:115 | `split()` yields only non-empty tokens without whitespace |
| PyText.SplitWsThree | schedule/referee.py:115 | three space-free words separated by single spaces split into exactly those three words |
| PyText.SplitOn | schedule/referee.py:30 | `split(' ')` always yields at least one piece |
| PyText.SplitJoin | schedule/referee.py:30 | joining the pieces of `split(sep)` with `sep` gives the original string back |
| PyText.ParseIntRoundTrip | referee.py:40-41 | reading back the decimal text `str` writes for an integer gives that integer |
| PyText.FixedWidthValues | schedule/helpers/master_schedule.py:20 | a two- or four-digit field is all digits and has the value of its digits read as a number |
| PyText.Pad2 | schedule/referee.py:39 | `%02d` writes exactly two digits that read back as the number |
| PyText.Pad4 | schedule/referee.py:39 | `%04d` writes exactly four digits that read back as the number |
| PyDates.FormatMDY | schedule/referee.py:39 | `%m/%d/%Y` text is ten characters with '/' at positions 2 and 5 |
| PyDates.MDYRoundTrip | schedule/referee.py:39 | the date `%m/%d/%Y` writes is read back by `%m/%d/%Y` as the same date |
| PyDates.FormatTime12 | schedule/referee.py:122 | `%I:%M %p` text is eight characters with ':' at position 2 and a space at position 5 |
| PyDates.Time12RoundTrip | schedule/referee.py:122 | the 24-hour time can be recovered from its `%I:%M %p` text: nothing is lost |
| PyDates.Time12Example | schedule/tests/test_referee.py:248 | 8:00 is written '08:00 AM' |
| PyDates.Time12TenExample | schedule/tests/test_referee.py:249 | 10:00 is written '10:00 AM' |
| PyDates.StrptimeMDY | assignr/availability.py:43 | a successful date parse had exactly three '/'-separated fields |
| PyDates.StrptimeMDYFields | assignr/availability.py:43 | a text of three '/'-free fields joined by '/' splits into them, and parses when month, day and year tokens all read and form a real date |
| PyDates.ShortYearExample | tests/test_master_schedule.py:81-92 | '1/1/99' parses with `%m/%d/%y` as 1 January 1999 |
| PyDates.LongYearFormatExample | tests/test_master_schedule.py:81-92 | 1 January 1999 is written '01/01/1999' |
| PyDates.LongYearExample | tests/test_availability.py:69-78 | '01/10/2023' parses with `%m/%d/%Y` as 10 January 2023 |
| PyDates.BadYearExample | tests/test_availability.py:54-67 | '01/10/ee' does not parse with `%m/%d/%Y` |
| PyGetopt.ShortHasArg | schedule/referee.py:160 | a short option letter is known exactly when it is in the short-option string (and is not ':') |
| PyGetopt.Possibilities | schedule/referee.py:160-162 | the candidate long options are exactly the table entries the word is a prefix of |
| PyGetopt.LongHasArgs | schedule/referee.py:160-162 | an exact table entry takes no argument, an exact entry with '=' takes one, and a word that prefixes no entry is refused |
| PyGetopt.DoLongsPlain | schedule/referee.py:160-162 | '--name' without '=': an option that takes an argument consumes the next word, and a missing next word is an error |
| PyGetopt.DoLongsValue | schedule/referee.py:160-162 | '--name=value': the value is the argument, refused when the option takes none |
| PyGetopt.GetoptDeclared | schedule/referee.py:160-162 | every option `getopt` returns is declared by the option tables |
| PyGetopt.GetoptShortArg | schedule/referee.py:160 | '-c value' for a letter declared with ':' returns the option with that value and goes on after it |
| PyGetopt.ContinueFailed | schedule/referee.py:160-162 | when the words after a parsed option are refused, getopt refuses the whole line with the same error |
| PyGetopt.ShortHasArgSkip | schedule/referee.py:160 | a different leading letter does not decide whether a short option takes an argument |
| PyGetopt.ShortHasArgHit | schedule/referee.py:160 | a letter followed by ':' takes an argument |
| PyGetopt.GetoptStopsAtOperand | schedule/referee.py:160-162 | a word that is not an option ends parsing: it and every later word are left over |
| PyGetopt.LastValueMeans | schedule/referee.py:167-180 | the value the option loop stores is that of the last option with one of the names, and it is present exactly when such an option occurs |
| PyGetopt.HelpIndex | schedule/referee.py:168-170 | the loop stops at the first '-h', and no earlier option is '-h' |
| RefereeMaster.AgeGender | schedule/referee.py:29-31 | the label splits exactly when it has at least three space-separated pieces; otherwise IndexError |
| RefereeMaster.AgeGenderOfLabel | schedule/referee.py:29-31 | for "A B G..." the gender is the third word and the age group is the first two words joined by one space |
| RefereeMaster.AgeGenderBoysExample | schedule/tests/test_referee.py:115-123 | "Grade 3/4 Boys" gives ("Boys", "Grade 3/4") |
| RefereeMaster.AgeGenderGirlsExample | schedule/helpers/master_schedule.py:11-13 | "Grade 3/4 Girls" gives ("Girls", "Grade 3/4"), as tests/test_master_schedule.py:9-19 expects |
| RefereeMaster.CellStrftimeMDY | schedule/referee.py:39 | `strftime` succeeds exactly on a date or time cell and gives a ten-character MM/DD/YYYY text; otherwise AttributeError |
| RefereeMaster.ProcessRow | schedule/referee.py:33-44 | a record is built exactly for a row of seven cells with a three-word label in column 0 and a date or time in column 2; an empty row raises IndexError and a non-string label AttributeError |
| RefereeMaster.ProcessRowFields | schedule/referee.py:33-44 | the record's gender and age group come from column 0, its date reads back as column 2's date, and the teams are "col3-col4" and "col5-col6" |
| RefereeMaster.Classify | schedule/referee.py:61-75 | a row is a home row exactly when column 3 lower-cased is the town, and away-only exactly when column 3 is another town's string and column 5 lower-cased is the town; a missing or non-string column raises |
| RefereeMaster.MasterRowsMeaning | schedule/referee.py:60-77 | the referee games hold, in row order, exactly one entry per home row, and the schedule-engine games one record per row the town plays in |
| RefereeMaster.RefereeConstants | schedule/referee.py:64-74 | every referee game has game id '', game type 'Coastal' and the title-cased town as league |
| RefereeMaster.HomeRowsFewer | schedule/referee.py:61-77 | home rows are played rows, so there are never more of them |
| RefereeMaster.RefereeGamesFewer | schedule/referee.py:63-77 | there are never more referee games than schedule-engine games |
| RefereeMaster.AwayRowAddsNoReferee | schedule/referee.py:75-77 | a row where the town only plays away adds a schedule-engine game and no referee game |
| RefereeMaster.MasterRowsErrStays | schedule/referee.py:60-77 | once a row raises, the exception escapes whatever rows follow |
| RefereeMaster.RefereesOfRowsSnoc | schedule/referee.py:64 | appending a home row's entry keeps the referee list in step with the home rows |
| RefereeMaster.GamesOfRowsSnoc | schedule/referee.py:63-77 | appending a played row's record keeps the game list in step with the played rows |
| RefereeMaster.MasterSheet | schedule/referee.py:51 | there is no 'Master' sheet exactly when no sheet has that title; otherwise its rows are those of a sheet titled 'Master' |
| RefereeMaster.ReadMasterSpreadsheet | schedule/referee.py:47-82 | without a Master sheet: rc 22, empty se_games and referee_games, one error logged; otherwise rc 0 and the referee games of the rows, with no se_games key, or the exception a row raised |
| TownGrid.PutDateMeaning | schedule/referee.py:106 | storing a date keeps every other entry, gives the date the new column, and puts a new key last (an existing key keeps its place) |
| TownGrid.PutDateKeys | schedule/referee.py:106 | storing a date adds its key at the end when it is new and leaves the keys alone otherwise |
| TownGrid.PutDateLookup | schedule/referee.py:106 | after storing, the date gives the new column and every other date what it gave before |
| TownGrid.LastMention | schedule/referee.py:101-104 | the last column whose string cell contains the word, or the old column when none does |
| TownGrid.ScanHeaderMeaning | schedule/referee.py:96-107 | a header row sets the field and time columns to the last string cell containing 'field' or 'time', keeps every earlier date, adds every date cell, and maps each date text to the last column holding it, or to its earlier column when no cell holds it |
| TownGrid.ScanHeaderLookup | schedule/referee.py:105-107 | after a header row, the column stored under a date text is the last column of the row holding a date written so, else the column stored before |
| TownGrid.LastDateColFound | schedule/referee.py:105-107 | when some column holds a date written `key`, the last-column search finds a column at or after it that holds that date, with no later one holding it |
| TownGrid.LastDateColNone | schedule/referee.py:105-107 | when no column holds a date written `key`, the earlier column is kept |
| TownGrid.ScanHeaderColumns | schedule/referee.py:101-104 | the field and time columns are the last header cells that mention them |
| TownGrid.ScanHeaderDates | schedule/referee.py:105-107 | every earlier date is kept, every date cell's MM/DD/YYYY text becomes a key, and each key maps to the last column whose date is written so (else to its earlier column) |
| TownGrid.MakeGame | schedule/referee.py:120-128 | a game carries the date key of its column and the sheet's age group |
| TownGrid.CellGame | schedule/referee.py:112-128 | a mapped cell gives no game exactly when it lies in the row and is not a playable string; a game exactly when the cell is playable with three tokens and a translated field; otherwise IndexError or KeyError |
| TownGrid.CellGameFields | schedule/referee.py:122-127 | the time is `%I:%M %p` of the time cell, the venue and sub-venue come from the field translation, and the home team is the title-cased town, '-', and the third token |
| TownGrid.GameGender | schedule/referee.py:116-119 | the gender is "Boys" exactly when the first token is "B", and "Girls" otherwise |
| TownGrid.GenderOfToken | schedule/referee.py:116 | for a token without whitespace, `strip()` changes nothing, so only "B" is Boys |
| TownGrid.TokensExample | schedule/tests/test_referee.py:241-327 | "B - 1" has the tokens "B", "-", "1" and is a Boys' game |
| TownGrid.GirlsTokenExample | schedule/referee.py:118-119 | a "G" token is Girls |
| TownGrid.DateGamesMeaning | schedule/referee.py:111-128 | when no exception occurs, a time row yields one game per mapped date whose cell is playable, in map order |
| TownGrid.GamesOfDatesSnoc | schedule/referee.py:128 | appending the game of one more playable date keeps the games in step with those dates |
| TownGrid.DateGamesPrefix | schedule/referee.py:111-128 | the dates fold over one more date takes one more step |
| TownGrid.NothingBeforeHeader | schedule/referee.py:95-110 | before the first header row nothing is emitted or logged and the lookup is untouched |
| TownGrid.HeaderRowEmitsNothing | schedule/helpers/town_schedule.py:38-53 | a header row itself yields no game and logs nothing, and sets `found_games` |
| TownGrid.TownGamesExtend | schedule/referee.py:95-134 | each row only appends games and logged faults after those of the earlier rows |
| TownGrid.TimeRowGames | schedule/referee.py:109-132 | a time row after a header appends the games of its dates up to the first IndexError or KeyError, which is logged with the row |
| TownGrid.NonTimeRowSkipped | schedule/referee.py:110 | a row whose time cell is not a time changes nothing |
| TownGrid.ReadHeader | schedule/referee.py:98-107 | the header loop computes the header scan |
| TownGrid.RowGames | schedule/referee.py:111-128 | the dates loop of a time row gives the games and the fault of the dates fold |
| TownGrid.DateGamesFaultStays | schedule/referee.py:129-132 | once a date cell raises, the rest of the row adds nothing |
| TownGrid.GetTownGames | schedule/referee.py:84-134 | the row loop returns the games and logged faults of the fold over the rows |
| TownGrid.ScanRow | schedule/referee.py:95-132 | the outer loop's body for one row is one step of the row fold |
| TownGrid.DateGamesAgeGroup | schedule/referee.py:125 | every game of a time row carries the age group it was read with |
| TownGrid.TownGamesAgeGroup | schedule/referee.py:125 | every game of a sheet carries the sheet's age group |
| TownGrid.SheetsGamesAgeGroups | schedule/referee.py:141-146 | every game comes from a visible sheet whose lower-cased title is an age-group key, and carries that key's age group |
| TownGrid.UnselectedSheetAddsNothing | schedule/referee.py:142-143 | a hidden sheet, or one whose title is not an age group, adds no games |
| TownGrid.ReadTownSpreadsheet | schedule/referee.py:136-148 | the sheet loop concatenates the games of the selected sheets in sheet order |
| ScheduleJoin.MatchesMembership | schedule/referee.py:239-242 | one town game's rows are exactly its combinations with the referee games that share its key |
| ScheduleJoin.InnerJoinSound | schedule/referee.py:239-242 | every merged row combines a town game and a referee game that agree on the key |
| ScheduleJoin.InnerJoinComplete | schedule/referee.py:239-242 | every agreeing pair of a town game and a referee game appears in the merged schedule |
| ScheduleJoin.InnerJoinMembership | schedule/referee.py:239-242 | the merged schedule holds exactly the combinations of a town game and a referee game that agree on age group, date, gender and home team |
| ScheduleJoin.InnerJoinAppend | schedule/referee.py:239-242 | the merge keeps the town order: it distributes over concatenation of the town games |
| ScheduleJoin.MatchesAtMostOne | schedule/referee.py:239-242 | with distinct referee keys a town game matches at most once, and exactly once when some referee game shares its key |
| ScheduleJoin.InnerJoinAtMostOnePerGame | schedule/referee.py:239-242 | with distinct referee keys the schedule has at most one row per town game |
| ScheduleJoin.InnerJoinNoReferees | schedule/referee.py:236-242 | the inner join with no referee games is empty |
| ScheduleJoin.NoRefereeGamesFails | schedule/referee.py:236-242 | the merge as written raises KeyError when there are no referee games, where the inner join is empty |
| RefereeArguments.LowerOpt | schedule/referee.py:176 | the town is stored only when given, as a text of the same length that lowering again leaves unchanged |
| RefereeArguments.CollectOptions | schedule/referee.py:167-180 | the option loop reports '-h' exactly when one occurs, and stores what the options before the first '-h' set |
| RefereeArguments.GetArguments | schedule/referee.py:150-187 | with the long-option table as declared: getopt failure gives 77 with nothing set; '-h' gives 99; otherwise 0 exactly when all five keys are set, else 99; each non-zero code logs the usage line |
| RefereeArguments.ParseArguments | schedule/referee.py:150-187 | the same outcomes over any long-option table: 77 on getopt failure, 99 for '-h' or a missing key, 0 exactly when all five keys are set |
| RefereeArguments.GetArgumentsCorrected | schedule/referee.py:150-187 | the same outcomes with 'output-file=' in the long-option table |
| RefereeArguments.CollectedTownLower | schedule/referee.py:176 | the stored town is lower case |
| RefereeArguments.LaterOptionWins | schedule/referee.py:171-172 | a repeated option overrides the earlier one |
| RefereeArguments.HelpParses | schedule/tests/test_referee.py:24 | '-h' parses as one option without argument |
| RefereeArguments.UnknownOptionFails | schedule/tests/test_referee.py:35 | '-n' is not recognised |
| RefereeArguments.OutputFileEntryAsWritten | schedule/referee.py:160-162 | the declared 'output-file' entry takes no argument |
| RefereeArguments.OutputFileEntry | schedule/referee.py:156-157 | with 'output-file=' the long option takes an argument, as the usage line says |
| RefereeArguments.OutputFileAsWritten | schedule/referee.py:160-162 | with the table as declared, '--output-file=out' is refused |
| RefereeArguments.OutputFilePlainAsWritten | schedule/referee.py:160-162 | as declared, '--output-file' consumes no argument |
| RefereeArguments.OutputFileSeparateAsWritten | schedule/referee.py:160-162 | as declared, '--output-file out' stores '' and leaves 'out' and every later word unparsed |
| RefereeArguments.OutputFileValue | schedule/referee.py:160-162 | with the corrected table, the long option takes its '=' value |
| RefereeArguments.OutputFileCorrected | schedule/referee.py:160-162 | with 'output-file=' in the table, '--output-file=out' parses to the option with value 'out' |
| RefereeArguments.ShortArgThenFails | schedule/referee.py:160-162 | a short option with its value in front of words getopt refuses leaves getopt refusing the whole line with the same error |
| RefereeArguments.ArgumentLetters | schedule/referee.py:160 | the letters m, t, s and c each take an argument in 'hm:t:s:c:o:' |
| RefereeArguments.ArgumentsThenFail | schedule/referee.py:160-162 | '-m', '-s', '-t' and '-c' with values in front of refused words leave the whole line refused with the same error |
| RefereeArguments.FullCommandLineAsWritten | schedule/referee.py:160-162 | with the table as declared, a full command line ending in '--output-file=out' is refused by getopt, so the program exits with 77 |
| RefereeArguments.OutputFileStored | schedule/referee.py:179-180 | an '--output-file' option with value 'out' sets the output file to 'out' |
| ScheduleUtils.Diagnostics | schedule/helpers/utils.py:25-53 | at most one message per lookup |
| ScheduleUtils.DiagnosticsFrom | schedule/helpers/utils.py:25-53 | every message comes from a lookup whose variable is missing |
| ScheduleUtils.ChecksTable | schedule/helpers/utils.py:25-53 | the lookup order is MASTER_SCHEDULE_ID, RANGE_NAME, TRANSLATION_FILE, OUTPUT_FILE_PREFIX, GOOGLE_APPLICATION_CREDENTIALS, with errors for the required three and warnings for the defaulted two |
| ScheduleUtils.LookupVariable | schedule/helpers/utils.py:25-29 | one try/except block: a present variable is stored under its key; a missing one logs its message, a defaulted one stores its default and a required one sets the code to 66 |
| ScheduleUtils.LookupNext | schedule/helpers/utils.py:25-53 | one further block takes the environment, code and log of the earlier lookups to those of one more |
| ScheduleUtils.LookupsSnoc | schedule/helpers/utils.py:25-53 | each lookup adds to the environment, the code and the log only what its own block does |
| ScheduleUtils.EnvironmentKeys | schedule/helpers/utils.py:25-53 | every stored key is the key of some lookup |
| ScheduleUtils.EnvironmentStores | schedule/helpers/utils.py:25-53 | with distinct keys, each lookup's value (the variable, or its default) is still stored after all the lookups, and a missing required one is absent |
| ScheduleUtils.ErrorCodeMeaning | schedule/helpers/utils.py:22-53 | the code is 0 or 66, and 0 exactly when every required variable of the lookups is present |
| ScheduleUtils.LookupsCode | schedule/helpers/utils.py:21-55 | rc is 0 exactly when MASTER_SCHEDULE_ID, RANGE_NAME and GOOGLE_APPLICATION_CREDENTIALS are present, and 66 otherwise |
| ScheduleUtils.LookupsStore | schedule/helpers/utils.py:25-53 | each present variable is stored under its key, a missing required one is left out, and a missing defaulted one gets 'files/translations.json' or 'schedule' |
| ScheduleUtils.LookupsKeys | schedule/helpers/utils.py:23-53 | no key is set but the five the blocks write |
| ScheduleUtils.GetEnvironment | schedule/helpers/utils.py:21-55 | the five blocks leave the environment, code and log of the five lookups made in table order; LookupsCode, LookupsStore, LookupsKeys and DiagnosticsFrom say what those mean |
| ScheduleUtils.DefaultsOnlyWarn | schedule/helpers/utils.py:37-47 | when the required variables are present, every message is a warning |
| ScheduleUtils.CollectOptions | schedule/helpers/utils.py:71-78 | the option loop reports '-h' exactly when one occurs, and stores what the options before it set |
| ScheduleUtils.GetArguments | schedule/helpers/utils.py:57-83 | getopt failure gives 77 with both keys unset; '-h' gives 99; otherwise 0 exactly when both are set, else 99; each non-zero code logs the usage line |
| ScheduleUtils.CollectedValues | schedule/helpers/utils.py:75-78 | the town file is the last one given, unchanged, and the town is lower case |
| ScheduleUtils.TownPair | tests/test_utils.py:21-25 | '-t X -s Y' parses to both options, whatever X and Y are |
| ScheduleUtils.TownFirst | tests/test_utils.py:21-25 | '-t X' is parsed first and parsing goes on with '-s Y' |
| ScheduleUtils.TownFileAfter | tests/test_utils.py:21-25 | after '-t X', the words '-s Y' add the second option and leave nothing |
| ScheduleUtils.TownFileLast | tests/test_utils.py:21-25 | '-s Y' as the last words is one option with its argument |
| ScheduleUtils.TownAndFileCollected | tests/test_utils.py:21-25 | those options set the town file to Y and the town to X lower-cased |
| ScheduleUtils.TownAndFileParse | tests/test_utils.py:21-25 | '-t X -s Y' parses and sets both keys |
| MasterScheduleSheet.ReformatDate | schedule/helpers/master_schedule.py:18-23 | only a string date can be parsed (otherwise TypeError); the date is present exactly when it parses as M/D/YY, and then reads back with `%m/%d/%Y` as the same day |
| MasterScheduleSheet.ShortDateExample | tests/test_master_schedule.py:81-92 | '1/1/99' is rewritten '01/01/1999' |
| MasterScheduleSheet.ProcessRow | schedule/helpers/master_schedule.py:15-33 | a record is built exactly for a row of seven cells with a three-word label and a string in column 2; a bad date does not stop it |
| MasterScheduleSheet.ProcessRowFields | schedule/helpers/master_schedule.py:15-33 | the gender and age group come from the label, the date is present exactly when column 2 parses and then names the same day, and the teams are filled even when the date is bad |
| MasterScheduleSheet.Classify | schedule/helpers/master_schedule.py:60-75 | home exactly when column 3 is the town and column 5 is not a bye or no game; away exactly when it is not home and column 5 is the town; a row without string columns 3 and 5 raises |
| MasterScheduleSheet.ByeIsNoHomeGame | schedule/helpers/master_schedule.py:61 | an opponent 'BYE' or 'No Game' is never a referee game |
| MasterScheduleSheet.ProcessFewer | schedule/helpers/master_schedule.py:62-77 | each referee append comes with a schedule-engine append, so the referee list is never longer |
| MasterScheduleSheet.EntriesOfRowsSnoc | schedule/helpers/master_schedule.py:64 | appending a home row's entry keeps the entries in step with the home rows |
| MasterScheduleSheet.RecordsOfRowsSnoc | schedule/helpers/master_schedule.py:63-77 | appending a played row's record keeps the records in step with the played rows |
| MasterScheduleSheet.ProcessMeaning | schedule/helpers/master_schedule.py:57-77 | without an exception, the referee entries are one per home row and the records one per played row, in row order |
| MasterScheduleSheet.ProcessFailureStays | schedule/helpers/master_schedule.py:58-77 | once a row raises, later rows change nothing |
| MasterScheduleSheet.ProcessPrefix | schedule/helpers/master_schedule.py:58-77 | without an earlier exception, one more row is one more step of the row loop |
| MasterScheduleSheet.MasterSchedule.constructor | schedule/helpers/master_schedule.py:37-42 | id and sheet range stored, no values, empty referee_games and se_games |
| MasterScheduleSheet.MasterSchedule.LoadSheet | schedule/helpers/master_schedule.py:52-55 | a response sets `values` to its 'values', or [] when it has none; an HttpError leaves the object unchanged |
| MasterScheduleSheet.MasterSchedule.ProcessMasterSchedule | schedule/helpers/master_schedule.py:57-77 | with no values, TypeError and nothing appended; otherwise the lists are extended by the row loop's games, kept when a row raises, and a referee entry is never appended without a schedule-engine game |
| MasterScheduleSheet.MasterSchedule.ProcessOneRow | schedule/helpers/master_schedule.py:59-77 | one pass of the loop body appends what one step of the row loop appends, reports the exception it raises, and changes no other field |
| TownScheduleClass.TownSchedule.constructor | schedule/helpers/town_schedule.py:9-14 | fields, file name, town name and age groups stored; `game_times` empty |
| TownScheduleClass.TownSchedule.GetTownGames | schedule/helpers/town_schedule.py:27-77 | the games and logged rows of the grid parser for the object's fields and town |
| TownScheduleClass.TownSchedule.ReadTownSpreadsheet | schedule/helpers/town_schedule.py:17-25 | `game_times` is extended, never shrunk: the old entries followed by the games of every selected sheet in sheet order; the other fields are unchanged |
| LegacyReferee.FieldsOfOk | referee.py:10-20 | loading succeeds exactly when every line has an 'id' and a 'description'; otherwise KeyError |
| LegacyReferee.FieldsOfMeaning | referee.py:17-18 | the map's keys are exactly the ids of the lines |
| LegacyReferee.FieldsOfLastWins | referee.py:17-18 | the id of the last line with that id maps to that line's description: later lines overwrite earlier ones |
| LegacyReferee.FieldsOfLastLine | referee.py:17-18 | the last line stores its description under its id over the map of the lines before it |
| LegacyReferee.FieldsOfErrStays | referee.py:17-18 | once a line raises, the exception escapes whatever lines follow |
| LegacyReferee.LoadFields | referee.py:10-20 | the line loop computes the fields fold |
| LegacyReferee.LastToken | referee.py:28 | the last token of column 0 is not empty |
| LegacyReferee.MasterRowGame | referee.py:26-42 | a row yields nothing exactly when column 3 is a string without 'hanover' (lower-cased), and a record exactly when it is kept and buildable |
| LegacyReferee.MasterRowFields | referee.py:28-41 | gender is the first letter of the last token, the age group is column 0 without it and right-stripped, the date is column 2, the teams are upper-cased names with the integer numbers, and the six crew fields are '' |
| LegacyReferee.LegacyLabelTokens | referee.py:28 | "Grade 3/4 Boys" splits into "Grade", "3/4", "Boys" |
| LegacyReferee.LegacyLabelAgeGroup | referee.py:29 | removing "Boys" from "Grade 3/4 Boys" and right-stripping gives "Grade 3/4" |
| LegacyReferee.LegacyLabelStrip | referee.py:29 | right-stripping "Grade 3/4 " gives "Grade 3/4" |
| LegacyReferee.ReplaceUntouched | referee.py:29 | replacing a pattern that occurs only at the end removes just that occurrence |
| LegacyReferee.MasterGamesMeaning | referee.py:26-42 | without an exception, the games are one record per kept row, in row order |
| LegacyReferee.MasterGamesErrStays | referee.py:26-42 | once a row raises, the exception escapes whatever rows follow |
| LegacyReferee.GamesOfKeptSnoc | referee.py:30 | appending a kept row's record keeps the games in step with the kept rows |
| LegacyReferee.MasterGamesPrefix | referee.py:26-42 | the master fold over one more row takes one more step |
| LegacyReferee.ReadMasterSpreadsheet | referee.py:22-44 | the row loop computes the master fold |
| LegacyReferee.GameCodeSplit | referee.py:65-66 | a cell matching `[A-Z,a-z] - [1-9]` splits on ' - ' into its letter and its digit |
| LegacyReferee.GameCodeExample | referee.py:65 | "B - 1" matches and splits into "B" and "1"; ", - 9" matches too; "B - 0" and "Bo - 1" do not |
| LegacyReferee.CellGame | referee.py:63-76 | a cell gives no game exactly when it is None or a non-matching string; a game exactly when it matches and its field is known (date is the header, time column 2, age group column 0, gender the letter, home team town-digit); otherwise IndexError, TypeError or KeyError |
| LegacyReferee.GameCols | referee.py:63 | the game columns lie from column 4 up to the width and hold games |
| LegacyReferee.RowGamesMeaning | referee.py:63-76 | without an exception, a row yields one game per matching column from column 4 on, in column order |
| LegacyReferee.RowGamesErrStays | referee.py:63-76 | once a cell raises, later columns change nothing |
| LegacyReferee.GamesAtColsSnoc | referee.py:66-76 | appending the game of one more matching column keeps the games in step with the matching columns |
| LegacyReferee.SheetGamesErrStays | referee.py:62-76 | once a row raises, later rows change nothing |
| LegacyReferee.NarrowSheetNoGames | referee.py:51-63 | a sheet of at most four columns yields no games |
| LegacyReferee.HeaderLines | referee.py:54-60 | a heading prints nothing when it parses as YYYY-MM-DD, and two lines otherwise |
| LegacyReferee.HeaderOutputEmpty | referee.py:53-60 | the header check prints nothing exactly when every heading from column 4 on parses as YYYY-MM-DD |
| LegacyReferee.HeaderOutputEven | referee.py:57-60 | every invalid heading prints its two lines, so the output always has an even number of lines |
| LegacyReferee.HeadersValidSnoc | referee.py:53 | one more column is valid together with the earlier columns exactly when all of them are |
| LegacyReferee.CheckHeaders | referee.py:53-60 | the header loop prints the header output |
| LegacyReferee.RowGameTimes | referee.py:63-76 | the column loop of one row computes the row fold |
| LegacyReferee.ReadTownSpreadsheet | referee.py:46-77 | the printed lines are the header output and the games are the sheet fold: the header check only prints and never changes or stops the games |
| Availability.DateErrors | assignr/availability.py:42-51 | no message exactly when both dates are valid MM/DD/YYYY; at most two, start first |
| Availability.CheckDates | assignr/availability.py:42-51 | the two checks log the date errors, start first, and give 88 exactly when one is logged, else 0 |
| Availability.CollectOptions | assignr/availability.py:29-36 | the option loop reports '-h' exactly when one occurs, and stores what the options before it set |
| Availability.GetArguments | assignr/availability.py:13-53 | getopt failure gives 77 with both dates unset; '-h' gives 99; a missing date gives 99 before any date check; otherwise 88 when a date is invalid (its message logged) and 0 when both are valid, the dates unchanged |
| Availability.InvalidDatesLog | tests/test_availability.py:54-67 | two invalid dates log the start-date error, then the end-date error |
| Availability.ValidDateAccepted | tests/test_availability.py:69-78 | '01/10/2023' passes the date check |
| Availability.ShapeRecord | assignr/availability.py:103-112 | a record is shaped exactly when it has 'all_day' and 'date' (and both times unless all day); the slot keeps the date, and its text is 'ALL DAY' or 'start - end' |
| Availability.AllDayIff | assignr/availability.py:103-112 | a slot reads 'ALL DAY' exactly when its record is all day |
| Availability.FirstMissing | assignr/availability.py:100-115 | every record before it shapes, and the record at it lacks a key |
| Availability.FirstMissingAt | assignr/availability.py:100-115 | the first-missing position is exactly the position of the first incomplete record |
| Availability.ShapeRecords | assignr/availability.py:100-115 | one slot per record in order, each the record's date with 'ALL DAY' or 'start - end', up to the first record with a missing key, whose key is logged |
| Availability.GetAvailability | assignr/availability.py:82-117 | 404 gives no slots and a warning; a missing body raises TypeError; a missing '_embedded' or 'availability' logs a KeyError and gives none; otherwise the shaped records, slot j the date and 'ALL DAY' or 'start - end' text of record j |
| Availability.RefereeOfRow | assignr/availability.py:132-135 | a row maps to a referee exactly when it has three columns; the id is column 2 and the name is columns 0 and 1 joined by a space |
| Availability.GetReferees | assignr/availability.py:119-137 | no FILE_NAME, or no such file, logs an error and gives no referees; otherwise one referee per row in order, named by columns 0 and 1 joined by a space with column 2 as id, or IndexError on a short row |

## Left out

- Reading and writing files and sheets (`pd.read_excel`, `pd.ExcelFile`, `read_ods`, `csv.DictReader`, `to_csv`/`to_excel`, the JSON translation file): sheets, CSV lines and environments are parameters. The `sheet_state` of a sheet is a field of its record.
- pandas' use of a sheet's first line as column labels: a sheet is given by its data rows, and root `referee.py`'s headings are a separate `columns` parameter.
- Google Sheets authentication and the API call in `MasterSchedule.load_sheet`: `LoadSheet` takes the call's outcome as a parameter. The row-count log line is not modelled.
- HTTP and OAuth (`authenticate`, `get_requests`) and the scripts' `main` functions: network clients and orchestration over exit codes. In `schedule/referee.py`'s `main` only the merge is modelled. The Flask and GraphQL application is framework glue.
- The merge is a list-based inner join: pandas' column suffixing and its `validate` options are not modelled.
- Logging texts: messages whose order the tests fix are kept as log lines. Those that print a whole row or an exception are abstracted: a logged row is its position and the exception raised (`RowFault`), and the header check's lines are values of a `Printed` type.
- `getopt` is modelled for what the scripts use: short options with ':', long options with '=', unique prefixes of long options, and '--' and non-option words ending the parse. GNU-style interleaving is not modelled.
- `strptime` and `strftime` are modelled for the formats used, on dates in the years 1 to 9999 (a two-digit '%y' year reads as 1969-2068). Other directives and locale-dependent parsing are not modelled.
- `str.lower`, `upper` and `title` act on ASCII letters only. Unicode case mapping is not modelled.
- Floating-point cells (a number column read as `2.0`, truncated by `int()`) are not modelled: number cells are integers.
- RefereeMaster.ProcessRow: a `time` cell in column 2 is formatted as `datetime.time.strftime` formats it, which fills in the date 1900-01-01; how pandas turns a sheet cell into a `time` is not modelled.
- `csv.DictReader` files: a CSV line without the 'id' or 'description' key stands for a file whose header lacks that column, where `load_fields` raises KeyError. Short rows, whose missing fields `csv.DictReader` fills with `None`, are not modelled.
- Dictionary insertion order: a `map` is used where only lookup matters, and an ordered list of entries where the order is observable (the dates map of the town grid).
- Two tests disagree with the code: schedule/tests/test_referee.py:183 reads `se_games` after a successful master read, which the result lacks, and schedule/tests/test_referee.py:429-434 expects 77 for missing options, where `get_arguments` returns 99. The code is modelled. The same holds for assignr/tests/test_availability.py, which expects an older usage text, and for the tests under `tests/` that target an earlier root `referee.py`.

## Findings

| source | as written | input that shows it | evidently intended | confidence | as-written member | corrected member |
|---|---|---|---|---|---|---|
| schedule/referee.py:160-162 | the long-option table lists "output-file" without '=', so `--output-file` takes no argument | `--output-file=out` is refused by `getopt`; `--output-file out` stores '' and stops parsing at `out` | "output-file=", so the long option takes the file name, as the usage line and '-o' do; `RefereeArguments.GetArguments` keeps the declared table and `RefereeArguments.GetArgumentsCorrected` uses the intended one | not executed | RefereeArguments.FullCommandLineAsWritten | RefereeArguments.OutputFileCorrected |
| schedule/referee.py:236-242 | `pd.DataFrame.from_dict` of an empty referee list has no columns, so the merge on `age_group` etc. raises KeyError | a town whose master schedule has no home game for it | an empty referee schedule, which the inner join yields | not executed | ScheduleJoin.NoRefereeGamesFails | ScheduleJoin.InnerJoinNoReferees |
