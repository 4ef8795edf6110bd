/**
 * parse_fix.py: a clean-up pass over a saved product list. A product whose
 * weight and volume are both empty gets one of them from its title, and
 * every product's city is set to Almaty.
 *
 * Reading and writing the JSON files and printing are left out: the parsed
 * list is the input, the list to be written and the two counters are the
 * result.
 */
module ParseFix {
  import opened Wrappers
  import opened Text

  // ---------------------------------------------------------------------
  // The pattern `(\d+(?:\.\d+)?)\s*UNIT\b` under re.IGNORECASE
  // ---------------------------------------------------------------------

  /** The weight units, in the order they are tried, then the volume units. */
  const WEIGHT_UNITS := ["г", "g", "кг", "kg"]
  const VOLUME_UNITS := ["л", "l", "мл", "ml"]

  /** A match of one pattern: the number is [start, numEnd), the unit is
      [unitStart, end). */
  datatype Match = Match(start: nat, numEnd: nat, unitStart: nat, end: nat)

  /** Python's `\w` on the characters the titles are written in: ASCII
      letters and digits, the underscore and the Cyrillic block. */
  predicate IsWordChar(c: char) {
    IsDigit(c) || ('a' <= c <= 'z') || ('A' <= c <= 'Z') || c == '_' || (0x400 as char <= c <= 0x4FF as char)
  }

  /** `\b` at position `e`: a word character on exactly one side. */
  predicate Boundary(s: string, e: nat) {
    (0 < e <= |s| && IsWordChar(s[e - 1])) != (e < |s| && IsWordChar(s[e]))
  }

  /** What a match of the pattern for `unit` at `m.start` is: digits, an
      optional fraction, blanks, the unit in any case, a word boundary. */
  predicate IsMatch(s: string, m: Match, unit: string) {
    && m.start < m.numEnd <= m.unitStart && m.end == m.unitStart + |unit| <= |s|
    && IsDigit(s[m.start])
    && (forall k :: m.start <= k < m.numEnd ==> IsDigit(s[k]) || s[k] == '.')
    && (forall k :: m.numEnd <= k < m.unitStart ==> PySpace(s[k]))
    && StartsAtIgnoringCase(s, m.unitStart, unit)
    && Boundary(s, m.end)
  }

  /** The pattern tried at `p`. Backtracking never helps: giving back a
      digit, the fraction or a blank puts a digit, a dot or a blank where
      the unit's first letter is expected. */
  function MatchAt(s: string, p: nat, unit: string): (r: Option<Match>)
    ensures r.Some? ==> r.value.start == p && IsMatch(s, r.value, unit)
  {
    if p >= |s| || !IsDigit(s[p]) then None
    else
      var intEnd := SpanEnd(s, p, IsDigit);
      var numEnd := if intEnd + 1 < |s| && s[intEnd] == '.' && IsDigit(s[intEnd + 1])
                    then SpanEnd(s, intEnd + 1, IsDigit) else intEnd;
      var unitStart := SpanEnd(s, numEnd, PySpace);
      var m := Match(p, numEnd, unitStart, unitStart + |unit|);
      if StartsAtIgnoringCase(s, unitStart, unit) && Boundary(s, m.end) then Some(m) else None
  }

  /** `re.search(pattern, title, re.IGNORECASE)`: the leftmost match. */
  function Search(s: string, unit: string): (r: Option<Match>)
    ensures r.Some? ==> IsMatch(s, r.value, unit) && MatchAt(s, r.value.start, unit) == r
    ensures r.Some? ==> forall p :: 0 <= p < r.value.start ==> MatchAt(s, p, unit).None?
    ensures r.None? ==> forall p :: 0 <= p < |s| ==> MatchAt(s, p, unit).None?
  {
    var hit := (p: nat) => MatchAt(s, p, unit).Some?;
    assert forall p: nat :: hit(p) == MatchAt(s, p, unit).Some?;
    var f := Find(0, |s|, hit);
    if f.Some? then MatchAt(s, f.value, unit) else None
  }

  /** The first unit of `units`, from index `i` on, whose pattern matches,
      with its match: the `for pattern in ...` loop that returns. */
  function FirstHit(s: string, units: seq<string>, i: nat): (r: Option<(nat, Match)>)
    requires i <= |units|
    decreases |units| - i
    ensures r.None? <==> forall k :: i <= k < |units| ==> Search(s, units[k]).None?
    ensures r.Some? ==> && i <= r.value.0 < |units|
                        && Search(s, units[r.value.0]) == Some(r.value.1)
                        && forall k :: i <= k < r.value.0 ==> Search(s, units[k]).None?
  {
    if i == |units| then None
    else match Search(s, units[i])
      case Some(m) => Some((i, m))
      case None => FirstHit(s, units, i + 1)
  }

  // ---------------------------------------------------------------------
  // extract_measurement
  // ---------------------------------------------------------------------

  datatype Kind = Weight | Volume

  /** The normalised measurement and its kind; `(None, None)` is `None`. */
  datatype Measured = Measured(text: string, kind: Kind)

  /** `match.group(1)`. */
  function Value(s: string, m: Match): string
    requires m.start <= m.numEnd <= |s|
  {
    s[m.start..m.numEnd]
  }

  /** `match.group(0).replace(value, '').strip()`. */
  function UnitText(s: string, m: Match): string
    requires m.start < m.numEnd <= m.end <= |s|
  {
    Trim(ReplaceAll(s[m.start..m.end], Value(s, m), ""), PySpace)
  }

  /** The winning pattern: its kind, its place in the unit list, and its
      match. */
  datatype Hit = Hit(kind: Kind, unit: nat, m: Match)

  function Units(kind: Kind): seq<string> {
    match kind
    case Weight => WEIGHT_UNITS
    case Volume => VOLUME_UNITS
  }

  /** No pattern of the kind matches anywhere. */
  predicate NoneOf(title: string, kind: Kind) {
    forall k :: 0 <= k < |Units(kind)| ==> Search(title, Units(kind)[k]).None?
  }

  /** The two loops of `extract_measurement`: every weight pattern in
      order, then every volume pattern in order, the first that matches
      wins. */
  function FirstMeasureHit(title: string): (r: Option<Hit>)
    ensures r.None? <==> NoneOf(title, Weight) && NoneOf(title, Volume)
    ensures r.Some? ==> && r.value.unit < |Units(r.value.kind)|
                        && Search(title, Units(r.value.kind)[r.value.unit]) == Some(r.value.m)
                        && forall k :: 0 <= k < r.value.unit ==> Search(title, Units(r.value.kind)[k]).None?
    ensures r.Some? ==> (r.value.kind == Weight <==> !NoneOf(title, Weight))
  {
    match FirstHit(title, Units(Weight), 0)
    case Some((k, m)) =>
      assert Search(title, Units(Weight)[k]).Some?;
      Some(Hit(Weight, k, m))
    case None =>
      assert NoneOf(title, Weight);
      match FirstHit(title, Units(Volume), 0)
      case Some((k, m)) =>
        assert Search(title, Units(Volume)[k]).Some?;
        Some(Hit(Volume, k, m))
      case None =>
        assert NoneOf(title, Volume);
        None
  }

  /** The test that picks the large unit, as written: the unit text must
      contain the large unit's name in lower case. */
  predicate NamesLargeUnit(unit: string, kind: Kind) {
    match kind
    case Weight => Contains(unit, "кг") || Contains(unit, "kg")
    case Volume => Contains(unit, "мл") || Contains(unit, "ml")
  }

  /** The unit written after the number. */
  function Suffix(kind: Kind, large: bool): string {
    match kind
    case Weight => if large then " кг" else " г"
    case Volume => if large then " мл" else " л"
  }

  /** The measurement string for a hit, once the unit is decided. */
  function Normalise(s: string, m: Match, kind: Kind, large: bool): (r: Measured)
    requires m.start <= m.numEnd <= |s|
    ensures r.kind == kind
    ensures |r.text| > m.numEnd - m.start && r.text[..m.numEnd - m.start] == Value(s, m)
    ensures r.text[|r.text| - 1] == (if kind == Weight then 'г' else 'л')
    ensures r.text != "null"
  {
    var suffix := Suffix(kind, large);
    var text := Value(s, m) + suffix;
    assert text[|text| - 1] == suffix[|suffix| - 1];
    assert text[..m.numEnd - m.start] == Value(s, m);
    NotNullText(text);
    Measured(text, kind)
  }

  /** `extract_measurement` as written. */
  function ExtractMeasurementAsWritten(title: string): (r: Option<Measured>)
    ensures r.None? <==> FirstMeasureHit(title).None?
  {
    match FirstMeasureHit(title)
    case Some(h) => Some(Normalise(title, h.m, h.kind, NamesLargeUnit(UnitText(title, h.m), h.kind)))
    case None => None
  }

  /** `extract_measurement` with the unit text compared without regard to
      case, as the case-insensitive patterns intend. */
  function ExtractMeasurement(title: string): (r: Option<Measured>)
    ensures r.None? <==> FirstMeasureHit(title).None?
  {
    match FirstMeasureHit(title)
    case Some(h) => Some(Normalise(title, h.m, h.kind, NamesLargeUnit(ToLower(UnitText(title, h.m)), h.kind)))
    case None => None
  }

  // ---------------------------------------------------------------------
  // What a match reads
  // ---------------------------------------------------------------------

  /** A lower-case letter of the units' alphabets. */
  predicate IsLowerLetter(c: char) {
    ('a' <= c <= 'z') || (0x430 as char <= c <= 0x44F as char)
  }

  predicate LowerWord(u: string) {
    |u| > 0 && forall k :: 0 <= k < |u| ==> IsLowerLetter(u[k])
  }

  lemma UnitsAreLowerWords(kind: Kind, k: nat)
    requires k < |Units(kind)|
    ensures LowerWord(Units(kind)[k])
  {
  }

  /** A character that folds to a lower-case letter is a word character,
      and neither a blank nor a digit. */
  lemma FoldsToLetter(c: char, l: char)
    requires IsLowerLetter(l) && Fold(c) == l
    ensures IsWordChar(c) && !PySpace(c) && !IsDigit(c)
  {
  }

  /** Every unit is followed by a non-word character or the end of the
      title: `150 гр` holds no match of the `г` pattern at 150. */
  lemma UnitEndsAWord(s: string, m: Match, unit: string)
    requires IsMatch(s, m, unit) && LowerWord(unit)
    ensures m.end == |s| || !IsWordChar(s[m.end])
  {
    FoldsToLetter(s[m.end - 1], unit[|unit| - 1]);
  }

  /** Removing the number from the match and stripping the blanks leaves
      exactly the unit as it is written in the title. */
  lemma UnitTextIsUnit(s: string, m: Match, unit: string)
    requires IsMatch(s, m, unit) && LowerWord(unit)
    ensures UnitText(s, m) == s[m.unitStart..m.end]
  {
    var rest := s[m.numEnd..m.end];
    var ws := m.unitStart - m.numEnd;
    assert ReplaceAll(s[m.start..m.end], Value(s, m), "") == rest by {
      AfterNumber(s, m, unit);
      SplitSlice(s, m.start, m.numEnd, m.end);
      DropLeadingNumber(s[m.start..m.end], Value(s, m), rest);
    }
    assert Trim(rest, PySpace) == s[m.unitStart..m.end] by {
      AfterNumber(s, m, unit);
      StripLeadingBlanks(rest, ws);
      TailOfSlice(s, m.numEnd, m.unitStart, m.end);
    }
  }

  lemma SplitSlice(s: string, a: nat, n: nat, b: nat)
    requires a <= n <= b <= |s|
    ensures s[a..b] == s[a..n] + s[n..b]
  {
  }

  lemma TailOfSlice(s: string, a: nat, c: nat, b: nat)
    requires a <= c <= b <= |s|
    ensures s[a..b][c - a..] == s[c..b]
  {
  }

  /** What follows the number in a match: blanks, then letters that are
      neither blanks nor digits. */
  lemma AfterNumber(s: string, m: Match, unit: string)
    requires IsMatch(s, m, unit) && LowerWord(unit)
    ensures var rest := s[m.numEnd..m.end];
            && (forall k :: 0 <= k < |rest| ==> !IsDigit(rest[k]))
            && (forall k :: 0 <= k < m.unitStart - m.numEnd ==> PySpace(rest[k]))
            && (forall k :: m.unitStart - m.numEnd <= k < |rest| ==> !PySpace(rest[k]))
  {
    var rest := s[m.numEnd..m.end];
    forall k | m.unitStart - m.numEnd <= k < |rest|
      ensures !IsDigit(rest[k]) && !PySpace(rest[k])
    {
      FoldsToLetter(rest[k], unit[k - (m.unitStart - m.numEnd)]);
    }
  }

  /** `(v + rest).replace(v, '')` is `rest` when `v` starts with a digit and
      `rest` holds none. */
  lemma DropLeadingNumber(g: string, v: string, rest: string)
    requires g == v + rest && |v| > 0 && IsDigit(v[0])
    requires forall k :: 0 <= k < |rest| ==> !IsDigit(rest[k])
    ensures ReplaceAll(g, v, "") == rest
  {
    assert StartsAt(g, 0, v);
    assert IndexOf(g, v) == Some(0);
    assert g[|v|..] == rest;
  }

  /** `strip()` of blanks followed by a word removes the blanks. */
  lemma StripLeadingBlanks(t: string, ws: nat)
    requires ws < |t|
    requires forall k :: 0 <= k < ws ==> PySpace(t[k])
    requires forall k :: ws <= k < |t| ==> !PySpace(t[k])
    ensures Trim(t, PySpace) == t[ws..]
  {
    SpanEndAt(t, 0, ws, PySpace);
    assert SpanStartBack(t, |t|, PySpace) == |t|;
  }

  // ---------------------------------------------------------------------
  // The unit the measurement is given in
  // ---------------------------------------------------------------------

  /** The large unit of each list: kilograms and millilitres. */
  predicate IsLargeUnit(u: string) {
    u == "кг" || u == "kg" || u == "мл" || u == "ml"
  }

  /** With the unit compared without regard to case, the measurement is in
      the large unit exactly when a large-unit pattern matched: the number
      is kept as written and the unit is decided by the pattern alone. */
  lemma UnitFollowsPattern(title: string)
    requires FirstMeasureHit(title).Some?
    ensures var h := FirstMeasureHit(title).value;
            ExtractMeasurement(title) == Some(Normalise(title, h.m, h.kind, IsLargeUnit(Units(h.kind)[h.unit])))
  {
    var h := FirstMeasureHit(title).value;
    LargeTestOnMatch(title, h.m, h.kind, h.unit);
  }

  /** The corrected test on a match of the pattern for unit number `k`. */
  lemma LargeTestOnMatch(title: string, m: Match, kind: Kind, k: nat)
    requires k < |Units(kind)| && IsMatch(title, m, Units(kind)[k])
    ensures NamesLargeUnit(ToLower(UnitText(title, m)), kind) == IsLargeUnit(Units(kind)[k])
  {
    UnitsAreLowerWords(kind, k);
    LoweredUnitText(title, m, Units(kind)[k]);
    LargeUnitNamed(kind, k);
  }

  /** The unit text of a match, in lower case, is the unit of the pattern. */
  lemma LoweredUnitText(title: string, m: Match, unit: string)
    requires IsMatch(title, m, unit) && LowerWord(unit)
    ensures ToLower(UnitText(title, m)) == unit
  {
    UnitTextIsUnit(title, m, unit);
    LowerOfMatched(title, m.unitStart, unit);
  }

  /** Under the `i` flag a lower-case unit matches exactly the strings
      that fold to it. */
  lemma LowerOfMatched(s: string, i: nat, unit: string)
    requires StartsAtIgnoringCase(s, i, unit) && LowerWord(unit)
    ensures ToLower(s[i..i + |unit|]) == unit
  {
    var w := s[i..i + |unit|];
    forall k | 0 <= k < |unit|
      ensures ToLower(w)[k] == unit[k]
    {
      assert w[k] == s[i + k];
      assert SameLetter(s[i + k], unit[k]);
    }
  }

  /** The test of `extract_measurement` on the lower-case unit names. */
  lemma LargeUnitNamed(kind: Kind, k: nat)
    requires k < |Units(kind)|
    ensures NamesLargeUnit(Units(kind)[k], kind) <==> IsLargeUnit(Units(kind)[k])
  {
    var u := Units(kind)[k];
    if IsLargeUnit(u) {
      assert StartsAt(u, 0, u);
    }
  }

  /** As written, a large unit (кг, kg, мл, ml) spelt with a capital is
      read as the small one: its pattern matches under the `i` flag, but
      the test that follows looks for the lower-case name in the text that
      matched. The corrected test reads the large unit. */
  lemma CapitalLargeUnitAsWritten(title: string, h: Hit)
    requires FirstMeasureHit(title) == Some(h) && h.unit >= 2
    requires h.m.unitStart < |title| && !IsLowerLetter(title[h.m.unitStart])
    ensures ExtractMeasurementAsWritten(title) == Some(Measured(Value(title, h.m) + Suffix(h.kind, false), h.kind))
    ensures ExtractMeasurement(title) == Some(Measured(Value(title, h.m) + Suffix(h.kind, true), h.kind))
  {
    WrittenUnitText(title);
    HitSpan(title, h);
    NormaliseIs(title, h.m, h.kind, false);
    NormaliseIs(title, h.m, h.kind, true);
    LargeUnitsHaveTwoLetters(h.kind, h.unit);
    var written := title[h.m.unitStart..h.m.end];
    CapitalNotNamed(written, h.kind);
    UnitFollowsPattern(title);
  }

  /** Where the unit of the winning match lies. */
  lemma HitSpan(title: string, h: Hit)
    requires FirstMeasureHit(title) == Some(h)
    ensures h.m.start <= h.m.numEnd <= h.m.unitStart <= h.m.end == h.m.unitStart + |Units(h.kind)[h.unit]| <= |title|
  {
    assert IsMatch(title, h.m, Units(h.kind)[h.unit]);
  }

  lemma LargeUnitsHaveTwoLetters(kind: Kind, k: nat)
    requires 2 <= k < |Units(kind)|
    ensures |Units(kind)[k]| == 2 && IsLargeUnit(Units(kind)[k])
  {
  }

  /** Two letters starting with a capital name no large unit as written. */
  lemma CapitalNotNamed(written: string, kind: Kind)
    requires |written| == 2 && !IsLowerLetter(written[0])
    ensures !NamesLargeUnit(written, kind)
  {
    match kind
    case Weight =>
      DiffersAtStart(written, "кг");
      DiffersAtStart(written, "kg");
    case Volume =>
      DiffersAtStart(written, "мл");
      DiffersAtStart(written, "ml");
  }

  /** `Normalise` writes the number followed by the unit of its kind. */
  lemma NormaliseIs(s: string, m: Match, kind: Kind, large: bool)
    requires m.start <= m.numEnd <= |s|
    ensures Normalise(s, m, kind, large) == Measured(Value(s, m) + Suffix(kind, large), kind)
  {
  }

  /** The text the winning pattern matched is the unit as spelt in the
      title. */
  lemma WrittenUnitText(title: string)
    requires FirstMeasureHit(title).Some?
    ensures var h := FirstMeasureHit(title).value;
            UnitText(title, h.m) == title[h.m.unitStart..h.m.end]
  {
    var h := FirstMeasureHit(title).value;
    UnitsAreLowerWords(h.kind, h.unit);
    UnitTextIsUnit(title, h.m, Units(h.kind)[h.unit]);
  }

  /** `1 КГ` is such a title: one kilogram, recorded as `1 г`. */
  lemma CapitalKilograms(title: string)
    requires |title| == 4 && title[0] == '1' && title[1] == ' ' && title[2] == 'К' && title[3] == 'Г'
    ensures ExtractMeasurementAsWritten(title) == Some(Measured("1 г", Weight))
    ensures ExtractMeasurement(title) == Some(Measured("1 кг", Weight))
  {
    var h := Hit(Weight, 2, Match(0, 1, 2, 4));
    var v := Value(title, h.m);
    assert v == "1" by {
      assert v == [title[0]];
    }
    CapitalKilogramsHit(title);
    assert !IsLowerLetter(title[h.m.unitStart]);
    CapitalLargeUnitAsWritten(title, h);
    OneUnit(v);
  }

  lemma OneUnit(v: string)
    requires v == "1"
    ensures v + Suffix(Weight, false) == "1 г" && v + Suffix(Weight, true) == "1 кг"
  {
  }

  /** Two strings of the same length that differ in their first character
      do not contain each other. */
  lemma DiffersAtStart(u: string, lit: string)
    requires |u| == |lit| > 0 && u[0] != lit[0]
    ensures !Contains(u, lit)
  {
  }

  /** In `1 КГ` neither `г` nor `g` matches, and `кг` matches the whole
      title. */
  lemma CapitalKilogramsHit(title: string)
    requires |title| == 4 && title[0] == '1' && title[1] == ' ' && title[2] == 'К' && title[3] == 'Г'
    ensures FirstMeasureHit(title) == Some(Hit(Weight, 2, Match(0, 1, 2, 4)))
  {
    var units := Units(Weight);
    assert units[0] == "г" && units[1] == "g" && units[2] == "кг";
    NoGramIn(title);
    KilogramsAtStart(title);
    assert FirstHit(title, units, 2) == Some((2, Match(0, 1, 2, 4)));
    assert FirstHit(title, units, 1) == FirstHit(title, units, 2);
    assert FirstHit(title, units, 0) == FirstHit(title, units, 1);
  }

  /** Neither `г` nor `g` matches in `1 КГ`. */
  lemma NoGramIn(s: string)
    requires |s| == 4 && s[0] == '1' && s[1] == ' ' && s[2] == 'К' && s[3] == 'Г'
    ensures Search(s, "г").None? && Search(s, "g").None?
  {
    assert !SameLetter('К', 'г') && !SameLetter('К', 'g');
    NoLetterUnitIn(s, "г");
    NoLetterUnitIn(s, "g");
  }

  /** A one-letter unit other than `к` does not match in `1 КГ`. */
  lemma NoLetterUnitIn(s: string, unit: string)
    requires |s| == 4 && s[0] == '1' && s[1] == ' ' && s[2] == 'К' && s[3] == 'Г'
    requires |unit| == 1 && !SameLetter('К', unit[0])
    ensures Search(s, unit).None?
  {
    SpanEndAt(s, 0, 1, IsDigit);
    SpanEndAt(s, 1, 2, PySpace);
    assert MatchAt(s, 0, unit).None?;
    assert !IsDigit(s[1]) && !IsDigit(s[2]) && !IsDigit(s[3]);
  }

  /** `кг` matches `1 КГ` from its first character. */
  lemma KilogramsAtStart(s: string)
    requires |s| == 4 && s[0] == '1' && s[1] == ' ' && s[2] == 'К' && s[3] == 'Г'
    ensures Search(s, "кг") == Some(Match(0, 1, 2, 4))
  {
    SpanEndAt(s, 0, 1, IsDigit);
    SpanEndAt(s, 1, 2, PySpace);
    assert MatchAt(s, 0, "кг") == Some(Match(0, 1, 2, 4));
  }

  // ---------------------------------------------------------------------
  // clean_products
  // ---------------------------------------------------------------------

  /** A field value of a saved product, as far as the clean-up looks at it:
      JSON null, a string, or any other value with its Python truth value. */
  datatype Json = Null | Str(s: string) | Other(truthy: bool)

  /** A product as loaded from the file: a JSON object. */
  type Record = map<string, Json>

  /** `not p.get(key) or p.get(key) in [None, 'null', '']`: the field is
      missing, null, falsy, or the string `null`. */
  predicate Blank(p: Record, key: string) {
    key !in p ||
    match p[key]
    case Null => true
    case Str(s) => s == "" || s == "null"
    case Other(truthy) => !truthy
  }

  /** Weight and volume are both blank: the title is consulted. */
  predicate NeedsMeasurement(p: Record) {
    Blank(p, "weight") && Blank(p, "volume")
  }

  /** `p.get('title', '')`, or `None` when it is not a string, which makes
      `re.search` raise a TypeError. */
  function TitleOf(p: Record): (r: Option<string>)
    ensures "title" !in p ==> r == Some("")
    ensures r.None? <==> "title" in p && !p["title"].Str?
  {
    if "title" !in p then Some("")
    else match p["title"]
      case Str(s) => Some(s)
      case _ => None
  }

  /** The field a measurement of the kind is stored in. */
  function FieldOf(kind: Kind): string {
    match kind
    case Weight => "weight"
    case Volume => "volume"
  }

  /** One product after the clean-up, and whether a measurement was
      extracted for it. */
  datatype Cleaned = Cleaned(record: Record, extracted: bool)

  /** The copy of `p` with the measurement found, if any, stored in the
      field of its kind, and the city set to Almaty. */
  function Fill(p: Record, found: Option<Measured>): (c: Cleaned)
    ensures c.extracted == found.Some?
    ensures c.record.Keys == p.Keys + {"city"} + (if found.Some? then {FieldOf(found.value.kind)} else {})
    ensures c.record["city"] == Str("Almaty")
    ensures found.Some? ==> c.record[FieldOf(found.value.kind)] == Str(found.value.text)
    ensures forall key :: key in p && key != "city" && (found.Some? ==> key != FieldOf(found.value.kind)) ==> c.record[key] == p[key]
  {
    match found
    case Some(m) => Cleaned(p[FieldOf(m.kind) := Str(m.text)]["city" := Str("Almaty")], true)
    case None => Cleaned(p["city" := Str("Almaty")], false)
  }

  /** The body of the loop of `clean_products` for one product, with
      `extract` standing for `extract_measurement`; `None` when it raises. */
  function CleanWith(extract: string -> Option<Measured>, p: Record): (r: Option<Cleaned>)
    ensures r.None? <==> NeedsMeasurement(p) && TitleOf(p).None?
  {
    if !NeedsMeasurement(p) then Some(Fill(p, None))
    else match TitleOf(p)
      case None => None
      case Some(title) => Some(Fill(p, extract(title)))
  }

  /** The clean-up of one product, as written. */
  function CleanOne(p: Record): Option<Cleaned> {
    CleanWith(ExtractMeasurementAsWritten, p)
  }

  /** The two extractions find a measurement for the same titles, and of
      the same kind: they differ only in the unit written. */
  lemma SameKind(title: string)
    ensures ExtractMeasurement(title).Some? <==> ExtractMeasurementAsWritten(title).Some?
    ensures ExtractMeasurement(title).Some? ==>
              ExtractMeasurement(title).value.kind == ExtractMeasurementAsWritten(title).value.kind
  {
  }

  /** The clean-up of one product with the corrected extraction. It fails
      and extracts for exactly the products the clean-up as written does,
      and fills the same field: only the unit written in it can differ. */
  function CleanOneCorrected(p: Record): (r: Option<Cleaned>)
    ensures r.None? <==> CleanOne(p).None?
    ensures r.Some? ==> && r.value.extracted == CleanOne(p).value.extracted
                        && r.value.record.Keys == CleanOne(p).value.record.Keys
                        && forall key :: key in p && key != "weight" && key != "volume" ==>
                             r.value.record[key] == CleanOne(p).value.record[key]
  {
    if NeedsMeasurement(p) && TitleOf(p).Some? then
      SameKind(TitleOf(p).value);
      CleanWith(ExtractMeasurement, p)
    else CleanWith(ExtractMeasurement, p)
  }

  /** A product with blank weight and volume titled `1 КГ` is cleaned to a
      weight of `1 г` as written, and of `1 кг` with the corrected
      extraction. */
  lemma CapitalKilogramsCleaned(p: Record, title: string)
    requires NeedsMeasurement(p) && "title" in p && p["title"] == Str(title)
    requires |title| == 4 && title[0] == '1' && title[1] == ' ' && title[2] == 'К' && title[3] == 'Г'
    ensures CleanOne(p).Some? && "weight" in CleanOne(p).value.record && CleanOne(p).value.record["weight"] == Str("1 г")
    ensures CleanOneCorrected(p).Some? && "weight" in CleanOneCorrected(p).value.record && CleanOneCorrected(p).value.record["weight"] == Str("1 кг")
  {
    CapitalKilograms(title);
    CleanedWeights(p, title);
  }

  /** The clean-up stores in `weight` the weight each extraction finds in
      the title of a product that needs a measurement. */
  lemma CleanedWeights(p: Record, title: string)
    requires NeedsMeasurement(p) && "title" in p && p["title"] == Str(title)
    requires ExtractMeasurementAsWritten(title) == Some(Measured("1 г", Weight))
    requires ExtractMeasurement(title) == Some(Measured("1 кг", Weight))
    ensures CleanOne(p).Some? && "weight" in CleanOne(p).value.record && CleanOne(p).value.record["weight"] == Str("1 г")
    ensures CleanOneCorrected(p).Some? && "weight" in CleanOneCorrected(p).value.record && CleanOneCorrected(p).value.record["weight"] == Str("1 кг")
  {
    assert TitleOf(p) == Some(title);
  }

  /** `q` is what the clean-up makes of `p`. */
  predicate CleansTo(p: Record, q: Record) {
    CleanOne(p).Some? && CleanOne(p).value.record == q
  }

  /** What `clean_products` reports: the list it writes and its two
      counters. */
  datatype Report = Report(cleaned: seq<Record>, extracted: nat, cityChanged: nat)

  /** How many of the products get a measurement from their title. */
  function ExtractedCount(products: seq<Record>): nat {
    if products == [] then 0
    else
      var last := CleanOne(products[|products| - 1]);
      ExtractedCount(products[..|products| - 1]) + (if last.Some? && last.value.extracted then 1 else 0)
  }

  /** `clean_products` without the files: the cleaned list and the counters,
      or `None` when a product that needs its title has one that is not a
      string. */
  method CleanProducts(products: seq<Record>) returns (r: Option<Report>)
    ensures r.None? <==> exists k :: 0 <= k < |products| && CleanOne(products[k]).None?
    ensures r.Some? ==> && |r.value.cleaned| == |products|
                        && (forall k :: 0 <= k < |products| ==> CleansTo(products[k], r.value.cleaned[k]))
                        && r.value.extracted == ExtractedCount(products)
                        && r.value.cityChanged == |products|
  {
    var cleaned: seq<Record> := [];
    var extracted := 0;
    var cityChanged := 0;
    for i := 0 to |products|
      invariant |cleaned| == i && cityChanged == i
      invariant forall k :: 0 <= k < i ==> CleansTo(products[k], cleaned[k])
      invariant extracted == ExtractedCount(products[..i])
    {
      var c := CleanProduct(products[i]);
      if c.None? {
        return None;
      }
      if c.value.extracted {
        extracted := extracted + 1;
      }
      cityChanged := cityChanged + 1;
      CleanedStep(products, i, cleaned, c.value.record);
      cleaned := cleaned + [c.value.record];
      ExtractedCountStep(products, i);
    }
    assert products[..|products|] == products;
    return Some(Report(cleaned, extracted, cityChanged));
  }

  /** One turn of the loop of `clean_products`: copy the product, fill an
      empty weight or volume from the title, set the city. */
  method CleanProduct(product: Record) returns (c: Option<Cleaned>)
    ensures c == CleanOne(product)
  {
    var cleaned := product;
    var extracted := false;
    if Blank(product, "weight") && Blank(product, "volume") {
      var title := TitleOf(product);
      if title.None? {
        return None;
      }
      var measurement := ExtractMeasurementAsWritten(title.value);
      if measurement.Some? {
        cleaned := cleaned[FieldOf(measurement.value.kind) := Str(measurement.value.text)];
        extracted := true;
      }
    }
    cleaned := cleaned["city" := Str("Almaty")];
    return Some(Cleaned(cleaned, extracted));
  }

  lemma CleanedStep(products: seq<Record>, i: nat, cleaned: seq<Record>, q: Record)
    requires i < |products| && |cleaned| == i && CleansTo(products[i], q)
    requires forall k :: 0 <= k < i ==> CleansTo(products[k], cleaned[k])
    ensures forall k :: 0 <= k <= i ==> CleansTo(products[k], (cleaned + [q])[k])
  {
  }

  lemma ExtractedCountStep(products: seq<Record>, i: nat)
    requires i < |products|
    ensures var c := CleanOne(products[i]);
            ExtractedCount(products[..i + 1]) == ExtractedCount(products[..i]) + (if c.Some? && c.value.extracted then 1 else 0)
  {
    assert products[..i + 1][..i] == products[..i];
  }

  /** The counter of extracted measurements never exceeds the number of
      products. */
  lemma {:induction false} ExtractedCountBounded(products: seq<Record>)
    ensures ExtractedCount(products) <= |products|
  {
    if products != [] {
      ExtractedCountBounded(products[..|products| - 1]);
    }
  }

  /** A measurement is extracted exactly when weight and volume are both
      blank and the title yields one. */
  lemma ExtractedWhenBothBlank(p: Record)
    requires CleanOne(p).Some?
    ensures CleanOne(p).value.extracted <==> NeedsMeasurement(p) && ExtractMeasurementAsWritten(TitleOf(p).value).Some?
  {
  }

  /** A measurement written by the clean-up is never blank. */
  lemma MeasurementNotBlank(title: string, m: Measured)
    requires ExtractMeasurementAsWritten(title) == Some(m) || ExtractMeasurement(title) == Some(m)
    ensures m.text != "" && m.text != "null"
  {
    var h := FirstMeasureHit(title).value;
  }

  lemma NotNullText(t: string)
    requires |t| > 0 && (t[|t| - 1] == 'г' || t[|t| - 1] == 'л')
    ensures t != "" && t != "null"
  {
  }

  /** Cleaning with an extraction that never yields a blank text is
      idempotent: the city is already Almaty, and a product that got a
      measurement no longer has both fields blank. */
  lemma CleanWithIsIdempotent(extract: string -> Option<Measured>, p: Record)
    requires forall t :: extract(t).Some? ==> extract(t).value.text != "" && extract(t).value.text != "null"
    requires CleanWith(extract, p).Some?
    ensures var q := CleanWith(extract, p).value.record;
            CleanWith(extract, q) == Some(Cleaned(q, false))
  {
    var c := CleanWith(extract, p).value;
    var q := c.record;
    assert q["city" := Str("Almaty")] == q;
    if c.extracted {
      var m := extract(TitleOf(p).value).value;
      assert !Blank(q, FieldOf(m.kind));
    } else {
      assert Blank(q, "weight") == Blank(p, "weight") && Blank(q, "volume") == Blank(p, "volume");
      assert TitleOf(q) == TitleOf(p);
    }
  }

  /** Running the clean-up on its own output changes nothing and extracts
      nothing more. */
  lemma CleanIsIdempotent(p: Record)
    requires CleanOne(p).Some?
    ensures var q := CleanOne(p).value.record;
            CleanOne(q) == Some(Cleaned(q, false))
  {
    forall t | ExtractMeasurementAsWritten(t).Some?
      ensures ExtractMeasurementAsWritten(t).value.text != "" && ExtractMeasurementAsWritten(t).value.text != "null"
    {
      MeasurementNotBlank(t, ExtractMeasurementAsWritten(t).value);
    }
    CleanWithIsIdempotent(ExtractMeasurementAsWritten, p);
  }
}
