/** parseRelicRecovery.py: turns the fill ratios of one Relic Recovery
    score sheet into the sixteen columns of a result line. */
module RelicRecovery {
  import opened Outcomes
  import opened SheetParser

  /** The twelve cells of a cryptobox, row by row, three cells a row. */
  type Cryptobox = b: seq<bool> | |b| == 12 witness seq(12, i => false)

  function Indicator(p: bool): nat {
    if p then 1 else 0
  }

  /** Python's all() */
  predicate AllTrue(s: seq<bool>) {
    forall i :: 0 <= i < |s| ==> s[i]
  }

  /** countGlyphs: the number of filled cells. */
  function CountGlyphs(b: seq<bool>): (n: nat)
    ensures n <= |b|
    ensures n == |b| <==> AllTrue(b)
  {
    if b == [] then 0 else CountGlyphs(b[..|b| - 1]) + Indicator(b[|b| - 1])
  }

  /** countRows: the number of complete rows, cryptobox[i:i+3] for i = 0, 3, 6, 9. */
  function CountRows(b: Cryptobox): nat {
    Indicator(AllTrue(b[0..3])) + Indicator(AllTrue(b[3..6]))
      + Indicator(AllTrue(b[6..9])) + Indicator(AllTrue(b[9..12]))
  }

  /** cryptobox[c::3]: the four cells of column c. */
  function Column(b: Cryptobox, c: nat): (col: seq<bool>)
    requires c < 3
    ensures |col| == 4
  {
    seq(4, k requires 0 <= k < 4 => b[c + 3 * k])
  }

  /** countColumns: the number of complete columns. */
  function CountColumns(b: Cryptobox): nat {
    Indicator(AllTrue(Column(b, 0))) + Indicator(AllTrue(Column(b, 1))) + Indicator(AllTrue(Column(b, 2)))
  }

  lemma GlyphsOfPrefix(b: seq<bool>, k: nat)
    requires k < |b|
    ensures CountGlyphs(b[..k + 1]) == CountGlyphs(b[..k]) + Indicator(b[k])
  {
    assert b[..k + 1][..k] == b[..k];
  }

  /** The glyph count of a cryptobox, cell by cell. */
  lemma {:induction false} GlyphsCellByCell(b: Cryptobox)
    ensures CountGlyphs(b) ==
      Indicator(b[0]) + Indicator(b[1]) + Indicator(b[2]) + Indicator(b[3])
      + Indicator(b[4]) + Indicator(b[5]) + Indicator(b[6]) + Indicator(b[7])
      + Indicator(b[8]) + Indicator(b[9]) + Indicator(b[10]) + Indicator(b[11])
  {
    assert b[..0] == [];
    GlyphsOfPrefix(b, 0); GlyphsOfPrefix(b, 1); GlyphsOfPrefix(b, 2); GlyphsOfPrefix(b, 3);
    GlyphsOfPrefix(b, 4); GlyphsOfPrefix(b, 5); GlyphsOfPrefix(b, 6); GlyphsOfPrefix(b, 7);
    GlyphsOfPrefix(b, 8); GlyphsOfPrefix(b, 9); GlyphsOfPrefix(b, 10); GlyphsOfPrefix(b, 11);
    assert b[..12] == b;
  }

  /** Row r is complete exactly when its three cells are filled. */
  lemma RowCells(b: Cryptobox, r: nat)
    requires r < 4
    ensures AllTrue(b[3 * r..3 * r + 3]) <==> b[3 * r] && b[3 * r + 1] && b[3 * r + 2]
    ensures 3 * Indicator(AllTrue(b[3 * r..3 * r + 3])) <= Indicator(b[3 * r]) + Indicator(b[3 * r + 1]) + Indicator(b[3 * r + 2])
  {
    var row := b[3 * r..3 * r + 3];
    assert row == [b[3 * r], b[3 * r + 1], b[3 * r + 2]];
    if AllTrue(row) {
      assert row[0] && row[1] && row[2];
    }
  }

  /** Column c is complete exactly when its four cells are filled. */
  lemma ColumnCells(b: Cryptobox, c: nat)
    requires c < 3
    ensures AllTrue(Column(b, c)) <==> b[c] && b[c + 3] && b[c + 6] && b[c + 9]
    ensures 4 * Indicator(AllTrue(Column(b, c))) <= Indicator(b[c]) + Indicator(b[c + 3]) + Indicator(b[c + 6]) + Indicator(b[c + 9])
  {
    var col := Column(b, c);
    assert col[0] == b[c] && col[1] == b[c + 3] && col[2] == b[c + 6] && col[3] == b[c + 9];
    if b[c] && b[c + 3] && b[c + 6] && b[c + 9] {
      assert forall k :: 0 <= k < 4 ==> col[k];
    }
  }

  /** At most four rows and three columns can be complete. */
  lemma CountBounds(b: Cryptobox)
    ensures CountRows(b) <= 4 && CountColumns(b) <= 3 && CountGlyphs(b) <= 12
  {
  }

  /** Every complete row holds three glyphs. */
  lemma RowsNeedGlyphs(b: Cryptobox)
    ensures 3 * CountRows(b) <= CountGlyphs(b)
  {
    GlyphsCellByCell(b);
    RowCells(b, 0); RowCells(b, 1); RowCells(b, 2); RowCells(b, 3);
  }

  /** Every complete column holds four glyphs. */
  lemma ColumnsNeedGlyphs(b: Cryptobox)
    ensures 4 * CountColumns(b) <= CountGlyphs(b)
  {
    GlyphsCellByCell(b);
    ColumnCells(b, 0); ColumnCells(b, 1); ColumnCells(b, 2);
  }

  lemma AllCells(b: Cryptobox)
    ensures AllTrue(b) <==> b[0] && b[1] && b[2] && b[3] && b[4] && b[5] && b[6] && b[7] && b[8] && b[9] && b[10] && b[11]
  {
  }

  lemma FullRows(b: Cryptobox)
    ensures CountRows(b) == 4 <==> AllTrue(b)
  {
    AllCells(b);
    RowCells(b, 0); RowCells(b, 1); RowCells(b, 2); RowCells(b, 3);
  }

  lemma FullColumns(b: Cryptobox)
    ensures CountColumns(b) == 3 <==> AllTrue(b)
  {
    AllCells(b);
    ColumnCells(b, 0); ColumnCells(b, 1); ColumnCells(b, 2);
  }

  /** A full cryptobox is exactly one with all four rows, or all three
      columns, complete. */
  lemma FullBox(b: Cryptobox)
    ensures CountRows(b) == 4 <==> AllTrue(b)
    ensures CountColumns(b) == 3 <==> AllTrue(b)
    ensures CountGlyphs(b) == 12 <==> AllTrue(b)
  {
    FullRows(b);
    FullColumns(b);
  }

  /** cryptobox1IDs / cryptobox2IDs: "<box>.1" up to "<box>.12". */
  function BoxIds(box: string): (ids: seq<string>)
    ensures |ids| == 12
  {
    seq(12, i requires 0 <= i < 12 => box + "." + NatToString(i + 1))
  }

  /** Every id of a cryptobox lies in the box's group, its suffix reads back
      as its position 1 to 12, and so the twelve ids are pairwise distinct. */
  lemma BoxIdsNumbered(box: string)
    ensures forall i :: 0 <= i < 12 ==>
      InGroup(BoxIds(box)[i], box) && ParseInt(BoxIds(box)[i][|box| + 1..]) == Ok(i + 1)
    ensures forall i, j :: 0 <= i < 12 && 0 <= j < 12 && i != j ==> BoxIds(box)[i] != BoxIds(box)[j]
  {
    forall i | 0 <= i < 12
      ensures InGroup(BoxIds(box)[i], box) && ParseInt(BoxIds(box)[i][|box| + 1..]) == Ok(i + 1)
    {
      var id := BoxIds(box)[i];
      assert id == (box + ".") + NatToString(i + 1);
      assert id[|box| + 1..] == NatToString(i + 1);
      ParseShowsInt(i + 1);
    }
  }

  /** How many of the two relics stand in zones 1, 2 and 3. */
  datatype Zones = Zones(zone1: nat, zone2: nat, zone3: nat)

  function RelicZones(relic1Pos: int, relic2Pos: int): (z: Zones)
    ensures z.zone1 + z.zone2 + z.zone3 == Indicator(1 <= relic1Pos <= 3) + Indicator(1 <= relic2Pos <= 3)
  {
    Zones(Indicator(relic1Pos == 1) + Indicator(relic2Pos == 1),
          Indicator(relic1Pos == 2) + Indicator(relic2Pos == 2),
          Indicator(relic1Pos == 3) + Indicator(relic2Pos == 3))
  }

  /** At most the two relics are ever counted in the zones. */
  lemma ZonesAtMostTwo(relic1Pos: int, relic2Pos: int)
    ensures var z := RelicZones(relic1Pos, relic2Pos); z.zone1 + z.zone2 + z.zone3 <= 2
  {
  }

  /** The sixteen values of `results`, in its order. */
  datatype RelicScore = RelicScore(
    matchNumber: Cell, team: Cell, color: Cell, autoglyphs: Cell,
    jewel: int, key: int, autopark: int, cipher: int,
    rows: nat, columns: nat, glyphs: nat, balanced: int,
    zones: Zones, standingRelics: int)

  /** int(parseOptionOrDefault(data, key, 0)) */
  function IntOption(marks: seq<Mark>, key: string): (r: Result<int, Error>)
    ensures HasGroup(marks, key) && !Marked(marks, key) ==> r == Ok(0)
    ensures !HasGroup(marks, key) ==> r == Err(EmptyGroup(key))
    ensures Marked(marks, key) ==>
      exists b :: 0 <= b < |marks| && IsFirstMax(marks, key, b) && r == ParseInt(marks[b].0[|key| + 1..])
  {
    var c :- OptionOrDefault(marks, key, Int(0));
    assert Marked(marks, key) ==>
      exists b :: 0 <= b < |marks| && IsFirstMax(marks, key, b) && ToInt(c) == ParseInt(marks[b].0[|key| + 1..])
    by {
      if Marked(marks, key) {
        var b :| 0 <= b < |marks| && IsFirstMax(marks, key, b) && marks[b].0 == key + "." + c.s;
        assert marks[b].0[|key| + 1..] == c.s;
      }
    }
    ToInt(c)
  }

  const MatchKeys: seq<string> := ["match1", "match2", "match3"]
  const TeamKeys: seq<string> := ["team1", "team2", "team3", "team4", "team5"]

  /** Some step of one iteration raises: a relic position that is not an
      integer, a missing cryptobox cell, a bad match or team number, an
      empty option group, or an integer column that does not parse. */
  predicate Raises(m: seq<Mark>) {
    || IntOption(m, "relic1").Err? || IntOption(m, "relic2").Err?
    || ParseVector(m, BoxIds("box1")).Err? || ParseVector(m, BoxIds("box2")).Err?
    || LabelsRaise(m) || ScoringRaises(m)
  }

  /** relic1Pos and relic2Pos. */
  function Positions(m: seq<Mark>): (r: Result<(int, int), Error>)
    ensures r.Err? <==> IntOption(m, "relic1").Err? || IntOption(m, "relic2").Err?
    ensures !HasGroup(m, "relic1") ==> r == Err(EmptyGroup("relic1"))
    ensures r.Ok? ==> r.value == (IntOption(m, "relic1").value, IntOption(m, "relic2").value)
  {
    var relic1Pos :- IntOption(m, "relic1");
    var relic2Pos :- IntOption(m, "relic2");
    Ok((relic1Pos, relic2Pos))
  }

  /** box1 and box2. */
  function Boxes(m: seq<Mark>): (r: Result<(Cryptobox, Cryptobox), Error>)
    ensures r.Err? <==> ParseVector(m, BoxIds("box1")).Err? || ParseVector(m, BoxIds("box2")).Err?
    ensures r.Ok? ==> r.value == (ParseVector(m, BoxIds("box1")).value, ParseVector(m, BoxIds("box2")).value)
  {
    var box1 :- ParseVector(m, BoxIds("box1"));
    var box2 :- ParseVector(m, BoxIds("box2"));
    Ok((box1, box2))
  }

  /** The four columns of `results` that are passed on as read. */
  datatype Labels = Labels(matchNumber: Cell, team: Cell, color: Cell, autoglyphs: Cell)

  predicate LabelsRaise(m: seq<Mark>) {
    || NumberOrDefault(m, MatchKeys, Text("")).Err? || NumberOrDefault(m, TeamKeys, Text("")).Err?
    || !HasGroup(m, "color") || !HasGroup(m, "autoglyphs")
  }

  function ReadLabels(m: seq<Mark>): (r: Result<Labels, Error>)
    ensures r.Err? <==> LabelsRaise(m)
    ensures r.Ok? ==>
      && r.value.matchNumber == NumberOrDefault(m, MatchKeys, Text("")).value
      && r.value.team == NumberOrDefault(m, TeamKeys, Text("")).value
      && OptionCell(m, "color", Text(""), r.value.color)
      && OptionCell(m, "autoglyphs", Int(0), r.value.autoglyphs)
  {
    var matchNumber :- NumberOrDefault(m, MatchKeys, Text(""));
    var team :- NumberOrDefault(m, TeamKeys, Text(""));
    var color :- OptionOrDefault(m, "color", Text(""));
    var autoglyphs :- OptionOrDefault(m, "autoglyphs", Int(0));
    Ok(Labels(matchNumber, team, color, autoglyphs))
  }

  /** The columns of `results` read with int(), sums already taken. */
  datatype Scoring = Scoring(jewel: int, key: int, autopark: int, cipher: int, balanced: int, standingRelics: int)

  predicate ScoringRaises(m: seq<Mark>) {
    || IntOption(m, "jewel").Err? || IntOption(m, "key").Err? || IntOption(m, "autopark").Err?
    || IntOption(m, "cipher1").Err? || IntOption(m, "cipher2").Err? || IntOption(m, "balanced").Err?
    || IntOption(m, "relic1standing").Err? || IntOption(m, "relic2standing").Err?
  }

  function ReadScoring(m: seq<Mark>): (r: Result<Scoring, Error>)
    ensures r.Err? <==> ScoringRaises(m)
    ensures r.Ok? ==>
      && r.value.jewel == IntOption(m, "jewel").value
      && r.value.key == IntOption(m, "key").value
      && r.value.autopark == IntOption(m, "autopark").value
      && r.value.cipher == IntOption(m, "cipher1").value + IntOption(m, "cipher2").value
      && r.value.balanced == IntOption(m, "balanced").value
      && r.value.standingRelics == IntOption(m, "relic1standing").value + IntOption(m, "relic2standing").value
  {
    var jewel :- IntOption(m, "jewel");
    var key :- IntOption(m, "key");
    var autopark :- IntOption(m, "autopark");
    var cipher1 :- IntOption(m, "cipher1");
    var cipher2 :- IntOption(m, "cipher2");
    var balanced :- IntOption(m, "balanced");
    var standing1 :- IntOption(m, "relic1standing");
    var standing2 :- IntOption(m, "relic2standing");
    Ok(Scoring(jewel, key, autopark, cipher1 + cipher2, balanced, standing1 + standing2))
  }

  /** The whole of one iteration of the input loop, up to the output: the
      first exception in evaluation order, or the result record. */
  function Results(sheet: Sheet): (r: Result<RelicScore, Error>)
    ensures r.Err? <==> Raises(sheet.marks)
    ensures !HasGroup(sheet.marks, "relic1") ==> r == Err(EmptyGroup("relic1"))
    ensures (exists i :: 0 <= i < 12 && Lookup(sheet.marks, BoxIds("box1")[i]).None?) ==> r.Err?
    ensures (exists i :: 0 <= i < 12 && Lookup(sheet.marks, BoxIds("box2")[i]).None?) ==> r.Err?
    ensures r.Ok? ==> r.value.rows <= 8 && r.value.columns <= 6 && r.value.glyphs <= 24
    ensures r.Ok? ==> 3 * r.value.rows <= r.value.glyphs && 4 * r.value.columns <= r.value.glyphs
    ensures r.Ok? ==>
      var box1, box2 := ParseVector(sheet.marks, BoxIds("box1")).value, ParseVector(sheet.marks, BoxIds("box2")).value;
      && r.value.rows == CountRows(box1) + CountRows(box2)
      && r.value.columns == CountColumns(box1) + CountColumns(box2)
      && r.value.glyphs == CountGlyphs(box1) + CountGlyphs(box2)
    ensures r.Ok? ==>
      r.value.zones == RelicZones(IntOption(sheet.marks, "relic1").value, IntOption(sheet.marks, "relic2").value)
    ensures r.Ok? ==> r.value.zones.zone1 + r.value.zones.zone2 + r.value.zones.zone3 <= 2
    ensures r.Ok? ==>
      && r.value.matchNumber == NumberOrDefault(sheet.marks, MatchKeys, Text("")).value
      && r.value.team == NumberOrDefault(sheet.marks, TeamKeys, Text("")).value
    ensures r.Ok? ==> OptionCell(sheet.marks, "color", Text(""), r.value.color)
    ensures r.Ok? ==> OptionCell(sheet.marks, "autoglyphs", Int(0), r.value.autoglyphs)
    ensures r.Ok? ==>
      && r.value.jewel == IntOption(sheet.marks, "jewel").value
      && r.value.key == IntOption(sheet.marks, "key").value
      && r.value.autopark == IntOption(sheet.marks, "autopark").value
      && r.value.cipher == IntOption(sheet.marks, "cipher1").value + IntOption(sheet.marks, "cipher2").value
      && r.value.balanced == IntOption(sheet.marks, "balanced").value
      && r.value.standingRelics ==
           IntOption(sheet.marks, "relic1standing").value + IntOption(sheet.marks, "relic2standing").value
  {
    var m := sheet.marks;
    var positions :- Positions(m);
    var boxes :- Boxes(m);
    var labels :- ReadLabels(m);
    var scoring :- ReadScoring(m);
    var (box1, box2) := boxes;
    CountBounds(box1); CountBounds(box2);
    RowsNeedGlyphs(box1); RowsNeedGlyphs(box2);
    ColumnsNeedGlyphs(box1); ColumnsNeedGlyphs(box2);
    ZonesAtMostTwo(positions.0, positions.1);
    Ok(RelicScore(
      labels.matchNumber, labels.team, labels.color, labels.autoglyphs,
      scoring.jewel, scoring.key, scoring.autopark, scoring.cipher,
      CountRows(box1) + CountRows(box2), CountColumns(box1) + CountColumns(box2),
      CountGlyphs(box1) + CountGlyphs(box2), scoring.balanced,
      RelicZones(positions.0, positions.1), scoring.standingRelics))
  }

  const Headers: seq<string> := [
    "match", "team", "color", "autoglyphs", "jewel", "key", "autopark", "cipher",
    "rows", "columns", "glyphs", "balanced", "zone1relics", "zone2relics", "zone3relics",
    "standingRelics"]

  /** `results` as an ordered dictionary. */
  function Row(s: RelicScore): (row: seq<(string, Cell)>)
    ensures |row| == |Headers| && forall i :: 0 <= i < |row| ==> row[i].0 == Headers[i]
  {
    [("match", s.matchNumber), ("team", s.team), ("color", s.color), ("autoglyphs", s.autoglyphs),
     ("jewel", Int(s.jewel)), ("key", Int(s.key)), ("autopark", Int(s.autopark)), ("cipher", Int(s.cipher)),
     ("rows", Int(s.rows)), ("columns", Int(s.columns)), ("glyphs", Int(s.glyphs)), ("balanced", Int(s.balanced)),
     ("zone1relics", Int(s.zones.zone1)), ("zone2relics", Int(s.zones.zone2)), ("zone3relics", Int(s.zones.zone3)),
     ("standingRelics", Int(s.standingRelics))]
  }

  lemma HeadersHaveNoComma()
    ensures forall i :: 0 <= i < |Headers| ==> NoComma(Headers[i])
  {
  }

  /** The header line names the sixteen columns in order. */
  lemma HeaderColumns(s: RelicScore)
    ensures Split(HeaderLine(Row(s))) == Headers
  {
    var row := Row(s);
    assert seq(|row|, i requires 0 <= i < |row| => row[i].0) == Headers;
    HeadersHaveNoComma();
    SplitJoin(Headers);
  }

  /** The data line has one column per header, as long as no option read as
      text holds a comma. */
  lemma DataColumns(s: RelicScore)
    requires NoComma(Show(s.matchNumber)) && NoComma(Show(s.team))
    requires NoComma(Show(s.color)) && NoComma(Show(s.autoglyphs))
    ensures |Split(DataLine(Row(s)))| == |Headers|
  {
    var row := Row(s);
    var shown := seq(|row|, i requires 0 <= i < |row| => Show(row[i].1));
    forall i | 4 <= i < |row|
      ensures NoComma(shown[i])
    {
      IntHasNoComma(row[i].1.i);
    }
    SplitJoin(shown);
  }
}
