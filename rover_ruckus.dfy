/** parseRoverRuckus.py: turns the fill ratios and the QR text of one Rover
    Ruckus score sheet into the twenty-one columns of a result line. Every
    value is passed on as read: options stay text, unmarked groups give
    their defaults. */
module RoverRuckus {
  import opened Outcomes
  import opened SheetParser

  /** How one column of `results` is read from the marks. */
  datatype Reader =
    | OptionOf(key: string, default: Cell)          // parseOptionOrDefault
    | NumberOf(digitKeys: seq<string>, default: Cell) // parseNumberOrDefault

  datatype Field = Field(name: string, reader: Reader)

  /** The columns after "competition", in the order of the dictionary: first
      those that say which match and which robot the sheet is about... */
  const MatchFields: seq<Field> := [
    Field("match", NumberOf(["match1", "match2", "match3"], Text(""))),
    Field("team", NumberOf(["team1", "team2", "team3", "team4", "team5"], Text(""))),
    Field("matchtype", OptionOf("matchtype", Text("Qual"))),
    Field("color", OptionOf("color", Text(""))),
    Field("startingside", OptionOf("side", Text("")))]

  /** ...then those that score it. */
  const ScoringFields: seq<Field> := [
    Field("landed", OptionOf("landed", Int(0))),
    Field("sampled", OptionOf("sampled", Int(0))),
    Field("claimed", OptionOf("claimed", Int(0))),
    Field("parked", OptionOf("parked", Int(0))),
    Field("lander", NumberOf(["lander1", "lander2"], Text(""))),
    Field("depot", NumberOf(["depot1", "depot2"], Text(""))),
    Field("hanging", OptionOf("hanging", Int(0))),
    Field("partincrater", OptionOf("partincrater", Int(0))),
    Field("fullyincrater", OptionOf("fullyincrater", Int(0))),
    Field("defense", OptionOf("defense", Int(0))),
    Field("minor", OptionOf("minor", Int(0))),
    Field("major", OptionOf("major", Int(0))),
    Field("goldhold", OptionOf("goldhold", Int(0))),
    Field("silverhold", OptionOf("silverhold", Int(0))),
    Field("disconnect", OptionOf("disconnect", Int(0)))]

  const Fields: seq<Field> := MatchFields + ScoringFields

  const Headers: seq<string> := [
    "competition", "match", "team", "matchtype", "color", "startingside",
    "landed", "sampled", "claimed", "parked", "lander", "depot",
    "hanging", "partincrater", "fullyincrater", "defense", "minor", "major",
    "goldhold", "silverhold", "disconnect"]

  /** The cell is what the reader promises: the default when nothing in its
      groups is filled, otherwise the chosen option, or for a number the
      integer that the chosen digits spell, read left to right. */
  ghost predicate Fits(marks: seq<Mark>, reader: Reader, cell: Cell) {
    match reader
    case OptionOf(key, default) => OptionCell(marks, key, default, cell)
    case NumberOf(keys, default) =>
      && ((forall k :: k in keys ==> HasGroup(marks, k) && !Marked(marks, k)) ==> cell == default)
      && ((exists k :: k in keys && Marked(marks, k)) ==> cell.Int?)
      && (((forall k :: k in keys ==> HasGroup(marks, k)) && Selected(marks, keys) != []
             && SingleDigits(Selected(marks, keys))) ==> cell == Int(Spelt(Selected(marks, keys))))
  }

  function Read(marks: seq<Mark>, reader: Reader): (r: Result<Cell, Error>)
    ensures r.Ok? ==> Fits(marks, reader, r.value)
  {
    match reader
    case OptionOf(key, default) => OptionOrDefault(marks, key, default)
    case NumberOf(keys, default) =>
      NumberSpelt(marks, keys, default);
      NumberOrDefault(marks, keys, default)
  }

  /** A number column holds the value of its single-digit choices. */
  lemma NumberSpelt(marks: seq<Mark>, keys: seq<string>, default: Cell)
    ensures ((forall k :: k in keys ==> HasGroup(marks, k)) && Selected(marks, keys) != []
             && SingleDigits(Selected(marks, keys))) ==>
      NumberOrDefault(marks, keys, default) == Ok(Int(Spelt(Selected(marks, keys))))
  {
    if (forall k :: k in keys ==> HasGroup(marks, k)) && Selected(marks, keys) != []
      && SingleDigits(Selected(marks, keys)) {
      NumberFromSelected(marks, keys, default);
    }
  }

  /** The columns, evaluated left to right: the first exception, or every
      column's name with its value. */
  function ReadFields(marks: seq<Mark>, fields: seq<Field>): (r: Result<seq<(string, Cell)>, Error>)
    ensures r.Err? <==> exists i :: 0 <= i < |fields| && Read(marks, fields[i].reader).Err?
    ensures r.Ok? ==> |r.value| == |fields|
    ensures r.Ok? ==> forall i :: 0 <= i < |fields| ==>
      r.value[i].0 == fields[i].name && Fits(marks, fields[i].reader, r.value[i].1)
  {
    if fields == [] then Ok([])
    else
      var cell :- Read(marks, fields[0].reader);
      var rest :- ReadFields(marks, fields[1..]);
      assert forall i :: 1 <= i < |fields| ==> fields[1..][i - 1] == fields[i];
      Ok([(fields[0].name, cell)] + rest)
  }

  /** The `results` dictionary, in its order, or the first exception its
      evaluation raises. */
  function Results(sheet: Sheet): (r: Result<seq<(string, Cell)>, Error>)
    ensures sheet.qrData.None? ==> r == Err(MissingKey("qr_data"))
    ensures sheet.qrData.Some? ==>
      (r.Err? <==> exists i :: 0 <= i < |Fields| && Read(sheet.marks, Fields[i].reader).Err?)
    ensures r.Ok? ==> |r.value| == |Headers| && forall i :: 0 <= i < |Headers| ==> r.value[i].0 == Headers[i]
    ensures r.Ok? ==> r.value[0].1 == Text(sheet.qrData.value)
    ensures r.Ok? ==> forall i :: 0 <= i < |Fields| ==> Fits(sheet.marks, Fields[i].reader, r.value[i + 1].1)
  {
    var competition :- if sheet.qrData.Some? then Ok(sheet.qrData.value) else Err(MissingKey("qr_data"));
    var rest :- ReadFields(sheet.marks, Fields);
    HeadersName();
    Ok([("competition", Text(competition))] + rest)
  }

  lemma HeadersName()
    ensures |Headers| == |Fields| + 1 && Headers[0] == "competition"
    ensures forall i :: 0 <= i < |Fields| ==> Headers[i + 1] == Fields[i].name
  {
  }

  /** A sheet whose match-type group is left blank is a qualification match. */
  lemma UnmarkedMatchTypeIsQual(sheet: Sheet)
    requires Results(sheet).Ok? && !Marked(sheet.marks, "matchtype")
    ensures Results(sheet).value[3].1 == Text("Qual")
  {
    assert Fields[2] == MatchFields[2];
  }

  /** The competition column is the QR text, so a line can be written only
      for a sheet whose QR code was read. */
  lemma CompetitionNeedsQr(sheet: Sheet)
    requires Results(sheet).Ok?
    ensures sheet.qrData.Some? && Results(sheet).value[0].1 == Text(sheet.qrData.value)
  {
  }

  lemma HeadersHaveNoComma()
    ensures forall i :: 0 <= i < |Headers| ==> NoComma(Headers[i])
  {
  }

  /** The header line names the twenty-one columns in order, and the data line
      has one column for each, as long as no value read holds a comma. */
  lemma LineColumns(row: seq<(string, Cell)>)
    requires |row| == |Headers| && forall i :: 0 <= i < |Headers| ==> row[i].0 == Headers[i]
    requires forall i :: 0 <= i < |row| ==> NoComma(Show(row[i].1))
    ensures Split(HeaderLine(row)) == Headers
    ensures |Split(DataLine(row))| == |Headers|
  {
    assert seq(|row|, i requires 0 <= i < |row| => row[i].0) == Headers;
    HeadersHaveNoComma();
    CsvColumnsAlign(row);
  }
}
