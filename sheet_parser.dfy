/** The decoding helpers shared, character for character, by
    parseRelicRecovery.py and parseRoverRuckus.py. They read one decoded JSON
    record of fill ratios, keyed by mark id (`<group>.<option>`), and turn it
    into answers. Fill ratios are only compared, so they are exact reals. */
module SheetParser {
  import opened Outcomes

  /** A mark is chosen only when its fill ratio exceeds this. */
  const Threshold: real := 0.3

  /** One numeric entry of the record: a mark id and its fill ratio. */
  type Mark = (string, real)

  /** One decoded record: its numeric entries in the record's own order, and
      its "qr_data" string, if it has one. */
  datatype Sheet = Sheet(marks: seq<Mark>, qrData: Option<string>)

  /** The exceptions the scripts can raise on a record. */
  datatype Error =
    | EmptyGroup(key: string)      // max() of an empty sequence (ValueError)
    | MissingKey(key: string)      // data[k] for an absent k (KeyError)
    | NotAnInteger(text: string)   // int() of a non-numeric string (ValueError)

  /** The values a result record holds: Python ints and strings. */
  datatype Cell = Int(i: int) | Text(s: string)

  /** The id belongs to the option group `key`: it starts with `key + '.'`. */
  predicate InGroup(id: string, key: string) {
    key + "." <= id
  }

  /** Some entry belongs to the group. */
  predicate HasGroup(marks: seq<Mark>, key: string) {
    exists i :: 0 <= i < |marks| && InGroup(marks[i].0, key)
  }

  /** Some entry of the group is filled above the threshold. */
  predicate Marked(marks: seq<Mark>, key: string) {
    exists i :: 0 <= i < |marks| && InGroup(marks[i].0, key) && marks[i].1 > Threshold
  }

  /** Entry b is what Python's max returns over the group's entries: a
      largest one, and the first largest in record order. */
  predicate IsFirstMax(marks: seq<Mark>, key: string, b: int) {
    && 0 <= b < |marks| && InGroup(marks[b].0, key)
    && (forall j :: 0 <= j < |marks| && InGroup(marks[j].0, key) ==> marks[j].1 <= marks[b].1)
    && (forall j :: 0 <= j < b && InGroup(marks[j].0, key) ==> marks[j].1 < marks[b].1)
  }

  /** The comprehension over `data.items()` and the `max` over it, fused into
      one left-to-right pass: a later entry replaces the best so far only
      when it is strictly larger. */
  function BestInGroup(marks: seq<Mark>, key: string): (r: Option<nat>)
    ensures r.None? <==> !HasGroup(marks, key)
    ensures r.Some? ==> IsFirstMax(marks, key, r.value)
  {
    if marks == [] then None
    else
      var last := |marks| - 1;
      var best := BestInGroup(marks[..last], key);
      assert forall j :: 0 <= j < last ==> marks[..last][j] == marks[j];
      if !InGroup(marks[last].0, key) then best
      else if best.None? || marks[last].1 > marks[best.value].1 then Some(last)
      else best
  }

  /** parseOption: the option of the most-filled mark of the group, if it is
      filled above the threshold; an error if the group has no mark. */
  function ParseOption(marks: seq<Mark>, key: string): (r: Result<Option<string>, Error>)
    ensures r.Err? <==> !HasGroup(marks, key)
    ensures r.Err? ==> r.error == EmptyGroup(key)
    ensures r.Ok? ==> (r.value.Some? <==> Marked(marks, key))
    ensures r.Ok? && r.value.Some? ==>
      exists b :: IsFirstMax(marks, key, b) && marks[b].0 == key + "." + r.value.value
  {
    match BestInGroup(marks, key)
    case None => Err(EmptyGroup(key))
    case Some(b) =>
      if marks[b].1 > Threshold then
        GroupSuffix(marks[b].0, key);
        Ok(Some(marks[b].0[|key| + 1..]))
      else Ok(None)
  }

  /** An id of the group is the group key, a dot, and its option. */
  lemma GroupSuffix(id: string, key: string)
    requires InGroup(id, key)
    ensures |key| + 1 <= |id| && id == key + "." + id[|key| + 1..]
  {
    assert id[..|key| + 1] == key + ".";
  }

  /** Python's max returns one entry: the first largest is unique. */
  lemma FirstMaxUnique(marks: seq<Mark>, key: string, b: int, c: int)
    requires IsFirstMax(marks, key, b) && IsFirstMax(marks, key, c)
    ensures b == c
  {
  }

  /** The option of the group's first most-filled mark. */
  ghost function FirstMaxOption(marks: seq<Mark>, key: string): (option: string)
    requires HasGroup(marks, key)
    ensures exists b :: IsFirstMax(marks, key, b) && marks[b].0 == key + "." + option
  {
    assert IsFirstMax(marks, key, BestInGroup(marks, key).value);
    var b :| IsFirstMax(marks, key, b);
    GroupSuffix(marks[b].0, key);
    marks[b].0[|key| + 1..]
  }

  /** A marked group yields the option of its first most-filled mark. */
  lemma ParseOptionChooses(marks: seq<Mark>, key: string)
    requires Marked(marks, key)
    ensures HasGroup(marks, key)
    ensures ParseOption(marks, key) == Ok(Some(FirstMaxOption(marks, key)))
  {
    var i :| 0 <= i < |marks| && InGroup(marks[i].0, key) && marks[i].1 > Threshold;
    assert HasGroup(marks, key);
    var r := ParseOption(marks, key);
    var b :| IsFirstMax(marks, key, b) && marks[b].0 == key + "." + r.value.value;
    var option := FirstMaxOption(marks, key);
    var c :| IsFirstMax(marks, key, c) && marks[c].0 == key + "." + option;
    FirstMaxUnique(marks, key, b, c);
    assert r.value.value == marks[b].0[|key| + 1..] == option;
  }

  /** The cell holds what parseOptionOrDefault gives for the group: the
      default when nothing is filled above the threshold, otherwise the
      option of the first most-filled mark. */
  predicate OptionCell(marks: seq<Mark>, key: string, default: Cell, cell: Cell) {
    && (!Marked(marks, key) ==> cell == default)
    && (Marked(marks, key) ==>
          cell.Text? && exists b :: 0 <= b < |marks| && IsFirstMax(marks, key, b) && marks[b].0 == key + "." + cell.s)
  }

  /** parseOptionOrDefault: the chosen option, or the default when nothing in
      the group is filled above the threshold. */
  function OptionOrDefault(marks: seq<Mark>, key: string, default: Cell): (r: Result<Cell, Error>)
    ensures r.Err? <==> !HasGroup(marks, key)
    ensures r.Err? ==> r.error == EmptyGroup(key)
    ensures r.Ok? ==> OptionCell(marks, key, default, r.value)
  {
    var option :- ParseOption(marks, key);
    Ok(if option.None? then default else Text(option.value))
  }

  /** The `digits` list of parseNumberOrDefault: the chosen option of each
      digit group, in the order of the keys, skipping unmarked groups. The
      first group without any mark raises. */
  function ChosenDigits(marks: seq<Mark>, keys: seq<string>): (r: Result<seq<string>, Error>)
    ensures r.Err? <==> exists k :: k in keys && !HasGroup(marks, k)
    ensures r.Ok? ==> |r.value| <= |keys|
    ensures r.Ok? ==> (r.value == [] <==> forall k :: k in keys ==> !Marked(marks, k))
  {
    if keys == [] then Ok([])
    else
      var last := keys[|keys| - 1];
      assert keys == keys[..|keys| - 1] + [last];
      AppendChoice(ChosenDigits(marks, keys[..|keys| - 1]), marks, last)
  }

  /** One iteration of the loop over the digit groups: a group without
      marks raises, an unmarked group adds nothing, and a marked group adds
      the option of its first most-filled mark. */
  function AppendChoice(digits: Result<seq<string>, Error>, marks: seq<Mark>, key: string)
    : (r: Result<seq<string>, Error>)
    ensures digits.Err? ==> r == digits
    ensures digits.Ok? && !HasGroup(marks, key) ==> r == Err(EmptyGroup(key))
    ensures digits.Ok? && HasGroup(marks, key) && !Marked(marks, key) ==> r == digits
    ensures digits.Ok? && Marked(marks, key) ==>
      r.Ok? && exists b :: IsFirstMax(marks, key, b) && r.value == digits.value + [marks[b].0[|key| + 1..]]
  {
    var ds :- digits;
    var option :- ParseOption(marks, key);
    Ok(if option.Some? then ds + [option.value] else ds)
  }

  lemma ChosenDigitsSnoc(marks: seq<Mark>, keys: seq<string>, key: string)
    ensures ChosenDigits(marks, keys + [key]) == AppendChoice(ChosenDigits(marks, keys), marks, key)
  {
    assert (keys + [key])[..|keys|] == keys;
  }

  /** What one digit group contributes: the option of its first most-filled
      mark when it is marked, nothing otherwise. */
  ghost function Choice(marks: seq<Mark>, key: string): seq<string>
  {
    if Marked(marks, key) then ParseOptionChooses(marks, key); [FirstMaxOption(marks, key)] else []
  }

  /** The options of the marked groups, in key order: what the digit loop
      collects, read from the front of the key list. */
  ghost function Selected(marks: seq<Mark>, keys: seq<string>): seq<string>
  {
    if keys == [] then [] else Choice(marks, keys[0]) + Selected(marks, keys[1..])
  }

  lemma {:induction false} SelectedSnoc(marks: seq<Mark>, keys: seq<string>, key: string)
    ensures Selected(marks, keys + [key]) == Selected(marks, keys) + Choice(marks, key)
  {
    if keys == [] {
      assert [key][1..] == [];
    } else {
      var rest := Selected(marks, keys[1..]);
      assert (keys + [key])[0] == keys[0];
      assert (keys + [key])[1..] == keys[1..] + [key];
      SelectedSnoc(marks, keys[1..], key);
      assert Choice(marks, keys[0]) + (rest + Choice(marks, key))
          == (Choice(marks, keys[0]) + rest) + Choice(marks, key);
    }
  }

  /** When every digit group has marks, the loop collects exactly the options
      of the marked groups, each the option of its first most-filled mark,
      in key order. */
  lemma {:induction false} ChosenDigitsSelected(marks: seq<Mark>, keys: seq<string>)
    requires forall k :: k in keys ==> HasGroup(marks, k)
    ensures ChosenDigits(marks, keys) == Ok(Selected(marks, keys))
  {
    if keys != [] {
      var front, last := keys[..|keys| - 1], keys[|keys| - 1];
      assert keys == front + [last];
      assert forall k :: k in front ==> k in keys;
      ChosenDigitsSnoc(marks, front, last);
      ChosenDigitsSelected(marks, front);
      SelectedSnoc(marks, front, last);
      AppendSelected(Selected(marks, front), marks, last);
    }
  }

  lemma AppendSelected(ds: seq<string>, marks: seq<Mark>, key: string)
    requires HasGroup(marks, key)
    ensures AppendChoice(Ok(ds), marks, key) == Ok(ds + Choice(marks, key))
  {
    var option := ParseOption(marks, key);
    if Marked(marks, key) {
      ParseOptionChooses(marks, key);
      assert AppendChoice(Ok(ds), marks, key) == Ok(ds + [option.value.value]);
    } else {
      assert option == Ok(None);
      assert AppendChoice(Ok(ds), marks, key) == Ok(ds);
      assert ds + [] == ds;
    }
  }

  /** ''.join of a list of strings. */
  function Concat(parts: seq<string>): (s: string)
    ensures parts == [] ==> s == []
  {
    if parts == [] then [] else Concat(parts[..|parts| - 1]) + parts[|parts| - 1]
  }

  /** parseNumberOrDefault, as a value: the integer spelt by the chosen
      digits, or the default when no digit group is marked. */
  function NumberOrDefault(marks: seq<Mark>, keys: seq<string>, default: Cell): (r: Result<Cell, Error>)
    ensures (forall k :: k in keys ==> HasGroup(marks, k) && !Marked(marks, k)) ==> r == Ok(default)
    ensures r.Ok? && (exists k :: k in keys && Marked(marks, k)) ==> r.value.Int?
    ensures (exists k :: k in keys && !HasGroup(marks, k)) ==> r.Err?
    ensures (forall k :: k in keys ==> HasGroup(marks, k)) && r.Err? ==> r.error.NotAnInteger?
  {
    var digits :- ChosenDigits(marks, keys);
    if |digits| > 0 then
      var n :- ParseInt(Concat(digits));
      Ok(Int(n))
    else Ok(default)
  }

  /** An error in a prefix of the keys is the error of all of them: the loop
      raises at the first group without marks. */
  lemma {:induction false} ChosenDigitsErrorPersists(marks: seq<Mark>, keys: seq<string>, n: nat)
    requires n <= |keys|
    requires ChosenDigits(marks, keys[..n]).Err?
    ensures ChosenDigits(marks, keys) == ChosenDigits(marks, keys[..n])
    decreases |keys|
  {
    if n < |keys| {
      assert keys[..|keys| - 1][..n] == keys[..n];
      ChosenDigitsErrorPersists(marks, keys[..|keys| - 1], n);
    } else {
      assert keys[..n] == keys;
    }
  }

  /** parseNumberOrDefault: the loop that appends the chosen digits, then
      `int(''.join(digits))`, or the default if there are none. */
  method ParseNumberOrDefault(marks: seq<Mark>, digitKeys: seq<string>, default: Cell)
    returns (r: Result<Cell, Error>)
    ensures r == NumberOrDefault(marks, digitKeys, default)
  {
    var digits: seq<string> := [];
    for i := 0 to |digitKeys|
      invariant ChosenDigits(marks, digitKeys[..i]) == Ok(digits)
    {
      assert digitKeys[..i + 1] == digitKeys[..i] + [digitKeys[i]];
      ChosenDigitsSnoc(marks, digitKeys[..i], digitKeys[i]);
      var option := ParseOption(marks, digitKeys[i]);
      if option.Err? {
        ChosenDigitsErrorPersists(marks, digitKeys, i + 1);
        return Err(option.error);
      }
      if option.value.Some? {
        digits := digits + [option.value.value];
      }
    }
    assert digitKeys[..|digitKeys|] == digitKeys;
    if |digits| > 0 {
      var n := ParseInt(Concat(digits));
      if n.Err? {
        return Err(n.error);
      }
      r := Ok(Int(n.value));
    } else {
      r := Ok(default);
    }
  }

  /** Each chosen option is one decimal digit. */
  predicate SingleDigits(ds: seq<string>) {
    forall k :: 0 <= k < |ds| ==> |ds[k]| == 1 && IsDigit(ds[k][0])
  }

  /** The number a sequence of one-digit options spells, read left to right. */
  function Spelt(ds: seq<string>): nat
    requires SingleDigits(ds)
  {
    if ds == [] then 0 else Spelt(ds[..|ds| - 1]) * 10 + (ds[|ds| - 1][0] - '0') as int
  }

  lemma {:induction false} ConcatSingleDigits(ds: seq<string>)
    requires SingleDigits(ds)
    ensures |Concat(ds)| == |ds| && AllDigits(Concat(ds))
    ensures DigitsValue(Concat(ds)) == Spelt(ds)
  {
    if ds != [] {
      var front := ds[..|ds| - 1];
      ConcatSingleDigits(front);
      var s := Concat(ds);
      assert s == Concat(front) + [ds[|ds| - 1][0]];
      assert s[..|s| - 1] == Concat(front);
    }
  }

  /** When the marked digit groups are filled with single digits, the number
      is those digits read in key order; unmarked groups contribute nothing
      (not a zero). */
  lemma NumberFromDigits(marks: seq<Mark>, keys: seq<string>, default: Cell, ds: seq<string>)
    requires ChosenDigits(marks, keys) == Ok(ds)
    requires ds != [] && SingleDigits(ds)
    ensures NumberOrDefault(marks, keys, default) == Ok(Int(Spelt(ds)))
  {
    ConcatSingleDigits(ds);
  }

  /** With every digit group present, parseNumberOrDefault reads the number
      spelt by the first most-filled digit of each marked group, in the
      order of the keys. */
  lemma NumberFromSelected(marks: seq<Mark>, keys: seq<string>, default: Cell)
    requires forall k :: k in keys ==> HasGroup(marks, k)
    requires Selected(marks, keys) != [] && SingleDigits(Selected(marks, keys))
    ensures NumberOrDefault(marks, keys, default) == Ok(Int(Spelt(Selected(marks, keys))))
  {
    ChosenDigitsSelected(marks, keys);
    NumberFromDigits(marks, keys, default, Selected(marks, keys));
  }

  /** With every digit group present and some group marked,
      parseNumberOrDefault raises `NotAnInteger` exactly when the joined
      options are not an integer literal, and otherwise gives their value. */
  lemma NumberOfSelected(marks: seq<Mark>, keys: seq<string>, default: Cell)
    requires forall k :: k in keys ==> HasGroup(marks, k)
    requires Selected(marks, keys) != []
    ensures var joined := Concat(Selected(marks, keys));
      && (NumberOrDefault(marks, keys, default).Err? <==> !IsIntLiteral(joined))
      && (!IsIntLiteral(joined) ==> NumberOrDefault(marks, keys, default) == Err(NotAnInteger(joined)))
      && (IsIntLiteral(joined) ==> NumberOrDefault(marks, keys, default) == Ok(Int(ParseInt(joined).value)))
  {
    ChosenDigitsSelected(marks, keys);
  }

  /** Appending the same group to two key lists with the same digits keeps
      their digits equal. */
  lemma SameDigitsSnoc(marks: seq<Mark>, a: seq<string>, b: seq<string>, key: string)
    requires ChosenDigits(marks, a) == ChosenDigits(marks, b)
    ensures ChosenDigits(marks, a + [key]) == ChosenDigits(marks, b + [key])
  {
    ChosenDigitsSnoc(marks, a, key);
    ChosenDigitsSnoc(marks, b, key);
  }

  /** A present but unmarked last group adds no digit. */
  lemma UnmarkedLastSkipped(marks: seq<Mark>, front: seq<string>, key: string)
    requires HasGroup(marks, key) && !Marked(marks, key)
    ensures ChosenDigits(marks, front + [key]) == ChosenDigits(marks, front)
  {
    ChosenDigitsSnoc(marks, front, key);
  }

  /** A digit group that has marks but none filled is dropped from the
      number, not read as a zero: filling 1, nothing, 5 spells 15. */
  lemma {:induction false} UnmarkedDigitSkipped(marks: seq<Mark>, keys: seq<string>, n: nat)
    requires n < |keys|
    requires HasGroup(marks, keys[n]) && !Marked(marks, keys[n])
    ensures ChosenDigits(marks, keys) == ChosenDigits(marks, keys[..n] + keys[n + 1..])
    decreases |keys|
  {
    var front, last := keys[..|keys| - 1], keys[|keys| - 1];
    DropAndSnoc(keys, n);
    if n == |keys| - 1 {
      UnmarkedLastSkipped(marks, front, last);
    } else {
      UnmarkedDigitSkipped(marks, front, n);
      SameDigitsSnoc(marks, front, front[..n] + front[n + 1..], last);
    }
  }

  /** How removing element n interacts with removing the last element. */
  lemma DropAndSnoc(keys: seq<string>, n: nat)
    requires n < |keys|
    ensures keys == keys[..|keys| - 1] + [keys[|keys| - 1]]
    ensures n == |keys| - 1 ==> keys[..n] + keys[n + 1..] == keys[..|keys| - 1]
    ensures n < |keys| - 1 ==>
      var front := keys[..|keys| - 1];
      front[n] == keys[n] &&
      keys[..n] + keys[n + 1..] == (front[..n] + front[n + 1..]) + [keys[|keys| - 1]]
  {
  }

  /** The value of `data[k]`: the first entry with that id, if any. */
  function Lookup(marks: seq<Mark>, id: string): (r: Option<real>)
    ensures r.None? <==> forall i :: 0 <= i < |marks| ==> marks[i].0 != id
    ensures r.Some? ==> exists i :: 0 <= i < |marks| && marks[i] == (id, r.value)
  {
    if marks == [] then None
    else if marks[0].0 == id then Some(marks[0].1)
    else
      var rest := Lookup(marks[1..], id);
      assert forall i :: 1 <= i < |marks| ==> marks[1..][i - 1] == marks[i];
      rest
  }

  /** parseVector: for each key in order, whether its mark is filled above
      the threshold; the first absent key raises. */
  function ParseVector(marks: seq<Mark>, keys: seq<string>): (r: Result<seq<bool>, Error>)
    ensures r.Err? <==> exists i :: 0 <= i < |keys| && Lookup(marks, keys[i]).None?
    ensures r.Ok? ==> |r.value| == |keys|
    ensures r.Ok? ==> forall i :: 0 <= i < |keys| ==> r.value[i] == (Lookup(marks, keys[i]).value > Threshold)
  {
    if keys == [] then Ok([])
    else
      var front := keys[..|keys| - 1];
      assert forall i :: 0 <= i < |keys| - 1 ==> front[i] == keys[i];
      var flags :- ParseVector(marks, front);
      var value := Lookup(marks, keys[|keys| - 1]);
      if value.None? then Err(MissingKey(keys[|keys| - 1]))
      else Ok(flags + [value.value > Threshold])
  }

  // ---- Python's int() and str() on the values involved ----

  predicate IsDigit(c: char) {
    '0' <= c <= '9'
  }

  predicate AllDigits(s: string) {
    forall i :: 0 <= i < |s| ==> IsDigit(s[i])
  }

  /** The value of a string of decimal digits, most significant first. */
  function DigitsValue(s: string): (n: nat)
    requires AllDigits(s)
  {
    if s == [] then 0
    else DigitsValue(s[..|s| - 1]) * 10 + (s[|s| - 1] - '0') as int
  }

  /** The digits of an integer literal: what follows a leading sign, if any. */
  function Unsigned(s: string): string {
    if |s| > 0 && (s[0] == '-' || s[0] == '+') then s[1..] else s
  }

  /** The strings int() accepts: an optional sign and at least one digit. */
  predicate IsIntLiteral(s: string) {
    |Unsigned(s)| > 0 && AllDigits(Unsigned(s))
  }

  /** int() of a string: an optional sign followed by decimal digits. */
  function ParseInt(s: string): (r: Result<int, Error>)
    ensures r.Ok? <==> IsIntLiteral(s)
    ensures r.Err? ==> r.error == NotAnInteger(s)
    ensures r.Ok? ==> r.value == (if s[0] == '-' then -1 else 1) * DigitsValue(Unsigned(s))
    ensures |s| > 0 && AllDigits(s) ==> r == Ok(DigitsValue(s))
  {
    if |s| > 1 && (s[0] == '-' || s[0] == '+') && AllDigits(s[1..]) then
      var magnitude: int := DigitsValue(s[1..]);
      Ok(if s[0] == '-' then -magnitude else magnitude)
    else if |s| > 0 && AllDigits(s) then Ok(DigitsValue(s))
    else Err(NotAnInteger(s))
  }

  /** int() of a record value: ints pass through, strings are parsed. */
  function ToInt(c: Cell): (r: Result<int, Error>)
    ensures c.Int? ==> r == Ok(c.i)
  {
    match c
    case Int(i) => Ok(i)
    case Text(s) => ParseInt(s)
  }

  function DigitChar(d: nat): (c: char)
    requires d < 10
    ensures IsDigit(c) && (c - '0') as int == d
  {
    '0' + d as char
  }

  /** str() of a natural number: its decimal digits without leading zeros. */
  function NatToString(n: nat): (s: string)
    ensures |s| > 0 && AllDigits(s)
    ensures n > 0 ==> s[0] != '0'
  {
    if n < 10 then [DigitChar(n)] else NatToString(n / 10) + [DigitChar(n % 10)]
  }

  function IntToString(i: int): string {
    if i < 0 then "-" + NatToString(-i) else NatToString(i)
  }

  /** str() of a record value. */
  function Show(c: Cell): string {
    match c
    case Int(i) => IntToString(i)
    case Text(s) => s
  }

  lemma {:induction false} NatToStringValue(n: nat)
    ensures DigitsValue(NatToString(n)) == n
  {
    if n >= 10 {
      var s := NatToString(n);
      NatToStringValue(n / 10);
      assert s[..|s| - 1] == NatToString(n / 10);
    }
  }

  /** int() undoes str() on integers. */
  lemma ParseShowsInt(i: int)
    ensures ParseInt(IntToString(i)) == Ok(i)
  {
    if i < 0 {
      ParseNegative(NatToString(-i));
      NatToStringValue(-i);
    } else {
      NatToStringValue(i);
    }
  }

  lemma ParseNegative(digits: string)
    requires |digits| > 0 && AllDigits(digits)
    ensures ParseInt("-" + digits).Ok? && ParseInt("-" + digits).value == -(DigitsValue(digits) as int)
  {
    assert ("-" + digits)[1..] == digits;
  }

  predicate NoComma(s: string) {
    forall i :: 0 <= i < |s| ==> s[i] != ','
  }

  /** A printed integer never holds a comma. */
  lemma IntHasNoComma(i: int)
    ensures NoComma(Show(Int(i)))
  {
    var digits := NatToString(if i < 0 then -i else i);
    assert forall k :: 0 <= k < |digits| ==> IsDigit(digits[k]);
  }

  // ---- The comma-joined output lines ----

  /** ','.join(parts) */
  function Join(parts: seq<string>): string {
    if parts == [] then ""
    else if |parts| == 1 then parts[0]
    else parts[0] + "," + Join(parts[1..])
  }

  /** str.split(',') : the pieces between commas. */
  function Split(s: string): (r: seq<string>)
    ensures |r| >= 1
  {
    if s == [] then [""]
    else
      var rest := Split(s[1..]);
      if s[0] == ',' then [""] + rest else [[s[0]] + rest[0]] + rest[1..]
  }

  lemma {:induction false} SplitAfterField(a: string, t: string)
    requires NoComma(a)
    ensures Split(a + "," + t) == [a] + Split(t)
    ensures Split(a) == [a]
  {
    if a != [] {
      assert (a + "," + t)[1..] == a[1..] + "," + t;
      SplitAfterField(a[1..], t);
      assert [a[0]] + a[1..] == a;
    }
  }

  /** Splitting a joined line at its commas gives back the fields, as long as
      no field holds a comma itself. */
  lemma {:induction false} SplitJoin(parts: seq<string>)
    requires |parts| >= 1
    requires forall k :: 0 <= k < |parts| ==> NoComma(parts[k])
    ensures Split(Join(parts)) == parts
  {
    SplitAfterField(parts[0], "");
    if |parts| > 1 {
      SplitJoin(parts[1..]);
      SplitAfterField(parts[0], Join(parts[1..]));
    }
  }

  /** The header line and the data line of a result record. */
  function HeaderLine(row: seq<(string, Cell)>): string {
    Join(seq(|row|, i requires 0 <= i < |row| => row[i].0))
  }

  function DataLine(row: seq<(string, Cell)>): string {
    Join(seq(|row|, i requires 0 <= i < |row| => Show(row[i].1)))
  }

  /** The data line has one comma-separated column per header, in the header's
      order, provided no key and no printed value holds a comma. */
  lemma CsvColumnsAlign(row: seq<(string, Cell)>)
    requires |row| >= 1
    requires forall i :: 0 <= i < |row| ==> NoComma(row[i].0) && NoComma(Show(row[i].1))
    ensures |Split(HeaderLine(row))| == |Split(DataLine(row))| == |row|
    ensures forall i :: 0 <= i < |row| ==>
      Split(HeaderLine(row))[i] == row[i].0 && Split(DataLine(row))[i] == Show(row[i].1)
  {
    SplitJoin(seq(|row|, i requires 0 <= i < |row| => row[i].0));
    SplitJoin(seq(|row|, i requires 0 <= i < |row| => Show(row[i].1)));
  }
}
