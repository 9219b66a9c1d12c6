/**
 * The referee-availability report: its command line (a start and an end
 * date, each MM/DD/YYYY), the shaping of one referee's availability
 * response into dated slots, and the referee list read from a CSV file.
 * The HTTP requests themselves are parameters: the status code and the
 * decoded JSON body arrive as values.
 */
module Availability {
  import opened Options
  import opened PyText
  import opened PyDates
  import opened PyGetopt
  import opened Cells

  const Usage: string := "USAGE: availability.py -s <start-date> -e <end-date> FORMAT=MM/DD/YYYY"
  const ShortOpts: string := "hs:e:"
  const LongOpts: seq<string> := ["start-date=", "end-date="]
  const StartNames: set<string> := {"-s", "--start-date"}
  const EndNames: set<string> := {"-e", "--end-date"}

  /** The `arguments` dictionary; `None` is a key still unset. */
  datatype Arguments = Arguments(startDate: Option<string>, endDate: Option<string>)

  /** What the option loop has stored after `opts`: the last start and the last end date. */
  function Collected(opts: seq<Opt>): Arguments {
    Arguments(LastValue(opts, StartNames), LastValue(opts, EndNames))
  }

  function StartInvalid(s: string): string {
    "Start Date value, " + s + " is invalid"
  }

  function EndInvalid(s: string): string {
    "End Date value, " + s + " is invalid"
  }

  /** A date `strptime(_, "%m/%d/%Y")` accepts. */
  predicate ValidMDY(s: string) {
    StrptimeMDY(s, true).Some?
  }

  /** The date checks' messages: the start date's first, then the end date's. */
  function DateErrors(start: string, end: string): (log: seq<LogLine>)
    ensures log == [] <==> ValidMDY(start) && ValidMDY(end)
    ensures |log| <= 2
  {
    (if ValidMDY(start) then [] else [LogError(StartInvalid(start))]) +
    (if ValidMDY(end) then [] else [LogError(EndInvalid(end))])
  }

  /** The option loop of `get_arguments`, stopping at the first '-h'. */
  method CollectOptions(opts: seq<Opt>) returns (help: bool, arguments: Arguments)
    ensures help <==> HelpIndex(opts) < |opts|
    ensures arguments == Collected(opts[..HelpIndex(opts)])
  {
    arguments := Arguments(None, None);
    var i := 0;
    while i < |opts|
      invariant 0 <= i <= |opts|
      invariant forall j :: 0 <= j < i ==> opts[j].name != "-h"
      invariant arguments == Collected(opts[..i])
    {
      var o := opts[i];
      assert opts[..i + 1] == opts[..i] + [o];
      LastValueSnoc(opts[..i], o, StartNames);
      LastValueSnoc(opts[..i], o, EndNames);
      if o.name == "-h" {
        return true, arguments;
      } else if o.name in StartNames {
        arguments := arguments.(startDate := Some(o.arg));
      } else if o.name in EndNames {
        arguments := arguments.(endDate := Some(o.arg));
      }
      i := i + 1;
    }
    assert opts[..i] == opts;
    return false, arguments;
  }

  /**
   * `get_arguments(args)`: 77 when `getopt` fails, 99 at '-h' or when a
   * date is missing (before any date is checked); otherwise each date is
   * checked on its own, an invalid one logging its message and making the
   * code 88, and two valid dates give 0. The dates are returned as given.
   */
  method GetArguments(args: seq<string>) returns (rc: int, arguments: Arguments, log: seq<LogLine>)
    ensures match Getopt(args, ShortOpts, LongOpts)
            case Failed(_) => rc == 77 && arguments == Arguments(None, None) && log == [LogError(Usage)]
            case Parsed(opts, _) =>
              var k := HelpIndex(opts);
              if k < |opts| then rc == 99 && arguments == Collected(opts[..k]) && log == [LogError(Usage)]
              else arguments == Collected(opts) &&
                   if arguments.startDate.None? || arguments.endDate.None? then rc == 99 && log == [LogError(Usage)]
                   else log == DateErrors(arguments.startDate.value, arguments.endDate.value) &&
                        rc == (if log == [] then 0 else 88)
  {
    var parse := Getopt(args, ShortOpts, LongOpts);
    if parse.Failed? {
      return 77, Arguments(None, None), [LogError(Usage)];
    }
    var help;
    help, arguments := CollectOptions(parse.opts);
    if help {
      return 99, arguments, [LogError(Usage)];
    }
    assert parse.opts[..|parse.opts|] == parse.opts;
    if arguments.startDate.None? || arguments.endDate.None? {
      return 99, arguments, [LogError(Usage)];
    }
    rc, log := CheckDates(arguments.startDate.value, arguments.endDate.value);
  }

  /** The two date checks of `get_arguments`, the start date first; either failing makes the code 88. */
  method CheckDates(start: string, end: string) returns (rc: int, log: seq<LogLine>)
    ensures log == DateErrors(start, end)
    ensures rc == (if log == [] then 0 else 88)
  {
    rc := 0;
    log := [];
    if StrptimeMDY(start, true).None? {
      log := log + [LogError(StartInvalid(start))];
      rc := 88;
    }
    if StrptimeMDY(end, true).None? {
      log := log + [LogError(EndInvalid(end))];
      rc := 88;
    }
  }

  /** '01/10/ee' as both dates fails both checks, start first. */
  lemma InvalidDatesLog()
    ensures DateErrors("01/10/ee", "01/10/ee") ==
            [LogError(StartInvalid("01/10/ee")), LogError(EndInvalid("01/10/ee"))]
  {
    BadYearExample("01/10/ee");
  }

  /** '01/10/2023' passes the date check. */
  lemma ValidDateAccepted()
    ensures ValidMDY("01/10/2023")
  {
    LongYearExample("01/10/2023");
  }

  /** One record of the availability response; `None` is a key the record lacks. */
  datatype AvailRecord = AvailRecord(
    date: Option<string>,
    allDay: Option<bool>,
    startTime: Option<string>,
    endTime: Option<string>)

  /** The decoded response body: `_embedded`, and inside it `availability`, may be missing. */
  datatype Body = Body(embedded: Option<Embedded>)
  datatype Embedded = Embedded(availability: Option<seq<AvailRecord>>)

  /** One `{date, avail}` entry of the result. */
  datatype Slot = Slot(date: string, avail: string)

  /** A record shaped into a slot, or the first key it lacks. */
  datatype Shaped = Entry(slot: Slot) | MissingKey(key: string)

  /**
   * The slot a complete record becomes: its date, and 'ALL DAY' for an
   * all-day record or "start - end" for a partial day.
   */
  predicate SlotOf(slot: Slot, r: AvailRecord) {
    r.allDay.Some? && r.date.Some? && slot.date == r.date.value &&
    if r.allDay.value then slot.avail == "ALL DAY"
    else r.startTime.Some? && r.endTime.Some? && slot.avail == r.startTime.value + " - " + r.endTime.value
  }

  /**
   * One record, looked up in the order the code reads it: 'all_day', then
   * 'date', then (for a partial day) 'start_time' and 'end_time'.
   */
  function ShapeRecord(r: AvailRecord): (s: Shaped)
    ensures s.Entry? <==> r.allDay.Some? && r.date.Some? && (r.allDay.value || (r.startTime.Some? && r.endTime.Some?))
    ensures s.Entry? ==> s.slot.date == r.date.value && SlotOf(s.slot, r)
    ensures s.Entry? && !r.allDay.value ==> StartsWith(s.slot.avail, r.startTime.value)
  {
    if r.allDay.None? then MissingKey("all_day")
    else if r.date.None? then MissingKey("date")
    else if r.allDay.value then Entry(Slot(r.date.value, "ALL DAY"))
    else if r.startTime.None? then MissingKey("start_time")
    else if r.endTime.None? then MissingKey("end_time")
    else
      var a := r.startTime.value + " - " + r.endTime.value;
      assert a[..|r.startTime.value|] == r.startTime.value;
      Entry(Slot(r.date.value, a))
  }

  /** An all-day record, and only one, reads 'ALL DAY': a time range always holds a '-'. */
  lemma AllDayIff(r: AvailRecord)
    requires ShapeRecord(r).Entry?
    ensures ShapeRecord(r).slot.avail == "ALL DAY" <==> r.allDay.value
  {
    if !r.allDay.value {
      var s := r.startTime.value;
      var a := s + " - " + r.endTime.value;
      assert a[|s| + 1] == '-';
    }
  }

  /** Position of the first record with a missing key, or `|records|` when all are complete. */
  function FirstMissing(records: seq<AvailRecord>): (k: nat)
    ensures k <= |records|
    ensures forall j :: 0 <= j < k ==> ShapeRecord(records[j]).Entry?
    ensures k < |records| ==> ShapeRecord(records[k]).MissingKey?
  {
    if |records| == 0 then 0
    else if ShapeRecord(records[0]).MissingKey? then 0
    else 1 + FirstMissing(records[1..])
  }

  function KeyErrorMessage(key: string): string {
    "Key: '" + key + "', missing from Availability response"
  }

  function NoAvailabilityMessage(userId: string): string {
    "User: " + userId + " has no availability"
  }

  /**
   * The shaping loop: one slot per record, in order, until a record lacks a
   * key; then the KeyError is logged and the slots so far are kept.
   */
  method ShapeRecords(records: seq<AvailRecord>) returns (availability: seq<Slot>, log: seq<LogLine>)
    ensures |availability| == FirstMissing(records)
    ensures forall j :: 0 <= j < |availability| ==> availability[j] == ShapeRecord(records[j]).slot
    ensures forall j :: 0 <= j < |availability| ==> SlotOf(availability[j], records[j])
    ensures log == if FirstMissing(records) < |records|
                   then [LogError(KeyErrorMessage(ShapeRecord(records[FirstMissing(records)]).key))]
                   else []
  {
    availability := [];
    var i := 0;
    while i < |records|
      invariant 0 <= i <= |records|
      invariant forall j :: 0 <= j < i ==> ShapeRecord(records[j]).Entry?
      invariant |availability| == i
      invariant forall j :: 0 <= j < i ==> availability[j] == ShapeRecord(records[j]).slot
    {
      var avail := records[i];
      if avail.allDay.None? {
        FirstMissingAt(records, i);
        return availability, [LogError(KeyErrorMessage("all_day"))];
      }
      if avail.allDay.value {
        if avail.date.None? {
          FirstMissingAt(records, i);
          return availability, [LogError(KeyErrorMessage("date"))];
        }
        availability := availability + [Slot(avail.date.value, "ALL DAY")];
      } else {
        if avail.date.None? || avail.startTime.None? || avail.endTime.None? {
          FirstMissingAt(records, i);
          var key := if avail.date.None? then "date" else if avail.startTime.None? then "start_time" else "end_time";
          return availability, [LogError(KeyErrorMessage(key))];
        }
        availability := availability + [Slot(avail.date.value, avail.startTime.value + " - " + avail.endTime.value)];
      }
      i := i + 1;
    }
    FirstMissingAt(records, i);
    log := [];
  }

  lemma {:induction false} FirstMissingAt(records: seq<AvailRecord>, i: nat)
    requires i <= |records|
    requires forall j :: 0 <= j < i ==> ShapeRecord(records[j]).Entry?
    requires i < |records| ==> ShapeRecord(records[i]).MissingKey?
    ensures FirstMissing(records) == i
  {
    if i > 0 {
      assert ShapeRecord(records[0]).Entry?;
      assert forall j :: 0 <= j < i - 1 ==> records[1..][j] == records[j + 1];
      FirstMissingAt(records[1..], i - 1);
    }
  }

  /**
   * `get_availability` once the request is made: a 404 gives no slots and a
   * warning; a missing body is a TypeError that escapes; a missing
   * '_embedded' or 'availability' is a logged KeyError with no slots;
   * otherwise the records are shaped as `ShapeRecords` says.
   */
  method GetAvailability(userId: string, statusCode: int, body: Option<Body>)
    returns (r: Result<seq<Slot>>, log: seq<LogLine>)
    ensures statusCode == 404 ==> r == Ok([]) && log == [LogWarning(NoAvailabilityMessage(userId))]
    ensures statusCode != 404 && body.None? ==> r == Err(TypeError) && log == []
    ensures statusCode != 404 && body.Some? && body.value.embedded.None? ==>
              r == Ok([]) && log == [LogError(KeyErrorMessage("_embedded"))]
    ensures statusCode != 404 && body.Some? && body.value.embedded.Some? &&
            body.value.embedded.value.availability.None? ==>
              r == Ok([]) && log == [LogError(KeyErrorMessage("availability"))]
    ensures statusCode != 404 && body.Some? && body.value.embedded.Some? &&
            body.value.embedded.value.availability.Some? ==>
              var records := body.value.embedded.value.availability.value;
              r.Ok? && |r.value| == FirstMissing(records) &&
              (forall j :: 0 <= j < |r.value| ==> r.value[j] == ShapeRecord(records[j]).slot) &&
              (forall j :: 0 <= j < |r.value| ==> SlotOf(r.value[j], records[j])) &&
              log == if FirstMissing(records) < |records|
                     then [LogError(KeyErrorMessage(ShapeRecord(records[FirstMissing(records)]).key))]
                     else []
  {
    if statusCode == 404 {
      return Ok([]), [LogWarning(NoAvailabilityMessage(userId))];
    }
    if body.None? {
      return Err(TypeError), [];
    }
    if body.value.embedded.None? {
      return Ok([]), [LogError(KeyErrorMessage("_embedded"))];
    }
    if body.value.embedded.value.availability.None? {
      return Ok([]), [LogError(KeyErrorMessage("availability"))];
    }
    var slots;
    slots, log := ShapeRecords(body.value.embedded.value.availability.value);
    r := Ok(slots);
  }

  /** One line of the referee list: the name and the referee's Assignr id. */
  datatype Referee = Referee(referee: string, id: Cell)

  /** A CSV row as a referee: first and last name joined by a space, and the id. */
  function RefereeOfRow(row: seq<Cell>): (r: Result<Referee>)
    ensures r.Ok? <==> |row| >= 3
    ensures r.Ok? ==> r.value.id == row[2] && StartsWith(r.value.referee, CellText(row[0]))
    ensures r.Ok? ==> r.value.referee == CellText(row[0]) + " " + CellText(row[1])
  {
    if |row| < 3 then Err(IndexError)
    else
      var name := CellText(row[0]) + " " + CellText(row[1]);
      assert name[..|CellText(row[0])|] == CellText(row[0]);
      Ok(Referee(name, row[2]))
  }

  /** `referee` is what the row reads as. */
  predicate RefereeRead(referee: Referee, row: seq<Cell>) {
    Ok(referee) == RefereeOfRow(row)
  }

  function FileNameMissing(): string { "FILE_NAME environment variable not found" }

  function FileNotFound(name: string): string { name + " Not Found!" }

  /**
   * `get_referees()` over the environment and the CSV files that exist
   * (their data rows): no FILE_NAME or no such file logs an error and
   * gives no referees; otherwise one referee per row, in order. A row with
   * fewer than three columns raises an IndexError that escapes.
   */
  method GetReferees(environ: map<string, string>, files: map<string, seq<seq<Cell>>>)
    returns (r: Result<seq<Referee>>, log: seq<LogLine>)
    ensures "FILE_NAME" !in environ ==> r == Ok([]) && log == [LogError(FileNameMissing())]
    ensures "FILE_NAME" in environ && environ["FILE_NAME"] !in files ==>
              r == Ok([]) && log == [LogError(FileNotFound(environ["FILE_NAME"]))]
    ensures "FILE_NAME" in environ && environ["FILE_NAME"] in files ==>
              var rows := files[environ["FILE_NAME"]];
              log == [] &&
              (r.Ok? <==> forall j :: 0 <= j < |rows| ==> |rows[j]| >= 3) &&
              (r.Ok? ==> |r.value| == |rows| &&
                         forall j :: 0 <= j < |rows| ==> RefereeRead(r.value[j], rows[j])) &&
              (r.Ok? ==> forall j :: 0 <= j < |rows| ==>
                           r.value[j].referee == CellText(rows[j][0]) + " " + CellText(rows[j][1]) &&
                           r.value[j].id == rows[j][2])
  {
    if "FILE_NAME" !in environ {
      return Ok([]), [LogError(FileNameMissing())];
    }
    if environ["FILE_NAME"] !in files {
      return Ok([]), [LogError(FileNotFound(environ["FILE_NAME"]))];
    }
    var rows := files[environ["FILE_NAME"]];
    var referees: seq<Referee> := [];
    log := [];
    var i := 0;
    while i < |rows|
      invariant 0 <= i <= |rows|
      invariant forall j :: 0 <= j < i ==> |rows[j]| >= 3
      invariant |referees| == i
      invariant forall j :: 0 <= j < i ==> RefereeRead(referees[j], rows[j])
    {
      var row := rows[i];
      if |row| < 3 {
        return Err(IndexError), log;
      }
      var referee := RefereeOfRow(row);
      ghost var before := referees;
      referees := referees + [referee.value];
      forall j | 0 <= j < i + 1
        ensures RefereeRead(referees[j], rows[j])
      {
        if j < i {
          assert referees[j] == before[j];
        }
      }
      i := i + 1;
    }
    r := Ok(referees);
  }
}
