/** Importing jokes from a CSV or Excel file, from the rows the parsing
    libraries hand over onwards: reading numbers the way `parseInt` and
    `parseFloat` do, normalising each row into a joke or an error, the loops
    that collect them, the Excel header mapping, and the dispatch on the file
    extension. */
module FileImport {
  import opened Wrappers
  import opened Seqs
  import opened Text

  // ---------------------------------------------------------------- numbers

  /** A JavaScript number that may be NaN. */
  datatype JsNumber = NaN | Finite(value: real)

  /** The sign and the text after it, once leading whitespace is skipped. */
  function SignedBody(s: string): (int, string) {
    var t := TrimStart(s);
    if t != [] && (t[0] == '+' || t[0] == '-') then (if t[0] == '-' then -1 else 1, t[1..]) else (1, t)
  }

  /** `parseInt(s, 10)`: optional whitespace and sign, then the longest run of
      digits; NaN when there is no digit. */
  function ParseInt(s: string): JsNumber {
    var (sign, body) := SignedBody(s);
    var digits := DigitPrefix(body);
    if digits == [] then NaN else Finite((sign * DigitsValue(digits)) as real)
  }

  function Pow10(k: nat): (r: nat)
    ensures r > 0
  {
    if k == 0 then 1 else 10 * Pow10(k - 1)
  }

  /** `parseFloat(s)` on decimal text: optional whitespace and sign, digits,
      and an optional fraction; NaN when there is no digit. */
  function ParseFloat(s: string): JsNumber {
    var (sign, body) := SignedBody(s);
    var whole := DigitPrefix(body);
    var rest := body[|whole|..];
    var fraction := if rest != [] && rest[0] == '.' then DigitPrefix(rest[1..]) else [];
    if whole == [] && fraction == [] then NaN
    else Finite(sign as real * DecimalValue(whole, fraction))
  }

  /** The value of `whole.fraction` written in decimal. */
  function DecimalValue(whole: string, fraction: string): (r: real)
    requires AllDigits(whole) && AllDigits(fraction)
    ensures r >= 0.0
    ensures fraction == [] ==> r == DigitsValue(whole) as real
  {
    DigitsValue(whole) as real + DigitsValue(fraction) as real / Pow10(|fraction|) as real
  }

  /** Digits read with no sign, or after a minus sign. */
  lemma SignedBodyOfDigits(digits: string)
    requires digits != [] && AllDigits(digits)
    ensures SignedBody(digits) == (1, digits)
    ensures SignedBody("-" + digits) == (-1, digits)
  {
    assert !IsSpace(digits[0]);
    assert TrimStart(digits) == digits;
    var negative := "-" + digits;
    assert !IsSpace(negative[0]);
    assert TrimStart(negative) == negative;
    assert negative[1..] == digits;
  }

  /** The decimal text of an integer reads back as that integer. */
  lemma ParseIntOfInt(i: int)
    ensures ParseInt(IntToString(i)) == Finite(i as real)
  {
    var digits := NatToString(if i < 0 then -i else i);
    if i < 0 {
      assert IntToString(i) == "-" + digits;
      ParseIntOfDigits(digits, true);
    } else {
      assert IntToString(i) == digits;
      ParseIntOfDigits(digits, false);
    }
  }

  /** Digits, with or without a minus sign, read as their value. */
  lemma ParseIntOfDigits(digits: string, negative: bool)
    requires digits != [] && AllDigits(digits)
    ensures ParseInt(if negative then "-" + digits else digits)
      == Finite((if negative then -(DigitsValue(digits) as int) else DigitsValue(digits) as int) as real)
  {
    DigitPrefixAll(digits);
    SignedBodyOfDigits(digits);
  }

  /** The decimal text of a natural number reads back as that number. */
  lemma ParseFloatOfNat(n: nat)
    ensures ParseFloat(NatToString(n)) == Finite(n as real)
  {
    var digits := NatToString(n);
    DigitPrefixAll(digits);
    SignedBodyOfDigits(digits);
    assert digits[|digits|..] == [];
  }

  // ---------------------------------------------------------------- cells and fields

  /** A cell as the libraries hand it over: missing (`undefined`), text, or a
      number. CSV cells are always text or missing. */
  datatype Cell = Empty | Str(s: string) | Num(n: real)

  /** JavaScript truthiness of a cell. */
  predicate Truthy(c: Cell) {
    match c
    case Empty => false
    case Str(s) => s != ""
    case Num(n) => n != 0.0
  }

  /** `Math.min(Math.max(v, 1), 5)` */
  function ClampRating(v: real): (r: real)
    ensures 1.0 <= r <= 5.0
    ensures 1.0 <= v <= 5.0 ==> r == v
  {
    if v < 1.0 then 1.0 else if v > 5.0 then 5.0 else v
  }

  /** `parseRating` */
  function ParseRating(value: Cell): Option<real> {
    match value
    case Empty => None
    case Str(s) =>
      if s == "" then None
      else (match ParseInt(s) case NaN => None case Finite(v) => Some(ClampRating(v)))
    case Num(n) => Some(ClampRating(n))
  }

  /** The number a cell holds, as `parseRating` or `parseDuration` reads it. */
  function CellNumber(value: Cell, read: string -> JsNumber): JsNumber {
    match value
    case Empty => NaN
    case Str(s) => if s == "" then NaN else read(s)
    case Num(n) => Finite(n)
  }

  /** A rating is absent exactly when the cell is missing, empty or not
      numeric; otherwise it is the number clamped into [1, 5]. */
  lemma ParseRatingFacts(value: Cell)
    ensures var r := ParseRating(value);
      && (r.None? <==> CellNumber(value, ParseInt).NaN?)
      && (r.Some? ==> 1.0 <= r.value <= 5.0 && r.value == ClampRating(CellNumber(value, ParseInt).value))
      && (forall k :: 1 <= k <= 5 && value == Str(IntToString(k)) ==> r == Some(k as real))
  {
    forall k | 1 <= k <= 5 && value == Str(IntToString(k))
      ensures ParseRating(value) == Some(k as real)
    {
      ParseIntOfInt(k);
      ParseRatingOfText(IntToString(k), k as real);
    }
  }

  lemma ParseRatingOfText(s: string, v: real)
    requires s != "" && ParseInt(s) == Finite(v) && 1.0 <= v <= 5.0
    ensures ParseRating(Str(s)) == Some(v)
  {
  }

  /** `parseDuration` */
  function ParseDuration(value: Cell): Option<real> {
    match value
    case Empty => None
    case Str(s) =>
      if s == "" then None
      else (match ParseFloat(s) case NaN => None case Finite(v) => if v <= 0.0 then None else Some(v))
    case Num(n) => if n <= 0.0 then None else Some(n)
  }

  /** A duration is absent exactly when the cell is missing, empty, not
      numeric or not positive; otherwise it is the number unchanged. */
  lemma ParseDurationFacts(value: Cell)
    ensures var r := ParseDuration(value);
      var num := CellNumber(value, ParseFloat);
      && (r.None? <==> num.NaN? || num.value <= 0.0)
      && (r.Some? ==> r.value > 0.0 && r.value == num.value)
      && (forall n: nat :: n > 0 && value == Str(NatToString(n)) ==> r == Some(n as real))
  {
    forall n: nat | n > 0 && value == Str(NatToString(n))
      ensures ParseDuration(value) == Some(n as real)
    {
      ParseFloatOfNat(n);
      ParseDurationOfText(NatToString(n), n as real);
    }
  }

  lemma ParseDurationOfText(s: string, v: real)
    requires s != "" && ParseFloat(s) == Finite(v) && v > 0.0
    ensures ParseDuration(Str(s)) == Some(v)
  {
  }

  predicate NonEmpty(s: string) {
    |s| > 0
  }

  /** `parseTags` on text: the comma-separated pieces, trimmed, empty ones dropped. */
  function ParseTags(value: string): seq<string> {
    if IsBlank(value) then []
    else Filter(Map(Split(value, ','), Trim), NonEmpty)
  }

  /** Every tag is non-empty, has no comma and no surrounding whitespace. */
  lemma ParseTagsFacts(value: string)
    ensures forall t :: t in ParseTags(value) ==> t != "" && ',' !in t && Trim(t) == t
  {
    if !IsBlank(value) {
      var pieces := Split(value, ',');
      var trimmed := Map(pieces, Trim);
      FilterMembership(trimmed, NonEmpty);
      forall t | t in ParseTags(value)
        ensures t != "" && ',' !in t && Trim(t) == t
      {
        var k :| 0 <= k < |trimmed| && trimmed[k] == t;
        TrimChars(pieces[k]);
        TrimNoSpace(t);
      }
    }
  }

  /** Trimming keeps only characters of the text. */
  lemma TrimChars(s: string)
    ensures forall c :: c in Trim(s) ==> c in s
  {
    var t := TrimStart(s);
    assert forall c :: c in t ==> c in s;
    assert forall c :: c in TrimEnd(t) ==> c in t;
  }

  /** Tags joined with ", " (as the export writes them) read back as the same
      tags, provided each is non-empty, trimmed and free of commas. */
  lemma ParseTagsOfJoined(tags: seq<string>)
    requires forall t :: t in tags ==> t != "" && ',' !in t && Trim(t) == t
    ensures ParseTags(Join(tags, ", ")) == tags
  {
    if tags != [] {
      var joined := Join(tags, ", ");
      assert tags[0] in tags;
      JoinedNotBlank(tags);
      TrimmedJoinedPieces(tags);
      assert forall k :: 0 <= k < |tags| ==> NonEmpty(tags[k]) by {
        forall k | 0 <= k < |tags|
          ensures NonEmpty(tags[k])
        {
          assert tags[k] in tags;
        }
      }
      FilterAll(tags, NonEmpty);
      assert ParseTags(joined) == Filter(Map(Split(joined, ','), Trim), NonEmpty);
    }
  }

  /** The trimmed pieces of tags joined with ", " are the tags. */
  lemma TrimmedJoinedPieces(tags: seq<string>)
    requires tags != []
    requires forall t :: t in tags ==> t != "" && ',' !in t && Trim(t) == t
    ensures Map(Split(Join(tags, ", "), ','), Trim) == tags
  {
    SplitJoinedTags(tags);
    var trimmed := Map(Split(Join(tags, ", "), ','), Trim);
    forall k | 0 <= k < |tags|
      ensures trimmed[k] == tags[k]
    {
      assert tags[k] in tags;
      if k > 0 {
        TrimLeadingSpace(tags[k]);
      }
    }
  }

  /** Joined non-empty trimmed tags are not blank. */
  lemma JoinedNotBlank(tags: seq<string>)
    requires tags != [] && tags[0] != "" && Trim(tags[0]) == tags[0]
    ensures !IsBlank(Join(tags, ", "))
  {
    var joined := Join(tags, ", ");
    JoinStartsWith(tags);
    assert joined[0] == tags[0][0];
    BlankIffAllSpace(joined);
  }

  lemma JoinStartsWith(tags: seq<string>)
    requires tags != []
    ensures |Join(tags, ", ")| >= |tags[0]| && Join(tags, ", ")[..|tags[0]|] == tags[0]
  {
  }

  /** A space before a trimmed, non-empty text is trimmed away. */
  lemma TrimLeadingSpace(t: string)
    requires t != "" && Trim(t) == t
    ensures Trim(" " + t) == t
  {
    assert (" " + t)[1..] == t;
    assert TrimStart(" " + t) == TrimStart(t);
    assert !IsSpace(t[0]) && !IsSpace(t[|t| - 1]);
  }

  /** The comma-separated pieces of tags joined with ", ": the first tag, then
      each later tag after one space. */
  lemma {:induction false} SplitJoinedTags(tags: seq<string>)
    requires tags != []
    requires forall t :: t in tags ==> ',' !in t
    ensures var pieces := Split(Join(tags, ", "), ',');
      && |pieces| == |tags|
      && pieces[0] == tags[0]
      && forall k :: 0 < k < |tags| ==> pieces[k] == " " + tags[k]
    decreases |tags|
  {
    if |tags| == 1 {
      SplitNoSeparator(tags[0], ',');
    } else {
      var rest := tags[1..];
      assert forall t :: t in rest ==> t in tags;
      SplitJoinedTags(rest);
      var tail := Join(rest, ", ");
      JoinCons(tags);
      SplitAfterSeparator(tags[0], " " + tail, ',');
      var restPieces := Split(tail, ',');
      SplitPrefix(' ', tail, ',');
      var pieces := [tags[0]] + ([" " + restPieces[0]] + restPieces[1..]);
      assert Split(Join(tags, ", "), ',') == pieces;
      forall k | 0 < k < |tags|
        ensures pieces[k] == " " + tags[k]
      {
        assert tags[k] == rest[k - 1];
        if k > 1 {
          ConsShift(tags[0], " " + restPieces[0], restPieces, k);
        }
      }
    }
  }

  /** Replacing the head of `r` and putting one element in front shifts the rest by one. */
  lemma ConsShift<T>(a: T, b: T, r: seq<T>, k: nat)
    requires 1 < k <= |r|
    ensures ([a] + ([b] + r[1..]))[k] == r[k - 1]
  {
  }

  lemma JoinCons(tags: seq<string>)
    requires |tags| > 1
    ensures Join(tags, ", ") == tags[0] + [','] + (" " + Join(tags[1..], ", "))
  {
  }

  /** Text without the separator is one piece. */
  lemma {:induction false} SplitNoSeparator(s: string, sep: char)
    requires sep !in s
    ensures Split(s, sep) == [s]
    decreases |s|
  {
    if s != [] {
      SplitNoSeparator(s[1..], sep);
      assert s == [s[0]] + s[1..];
    }
  }

  /** Text, a separator, and more text split into the first text followed by
      the pieces of the rest. */
  lemma {:induction false} SplitAfterSeparator(a: string, b: string, sep: char)
    requires sep !in a
    ensures Split(a + [sep] + b, sep) == [a] + Split(b, sep)
    decreases |a|
  {
    if a == [] {
      assert [sep] + b == a + [sep] + b;
      assert ([sep] + b)[1..] == b;
    } else {
      SplitAfterSeparator(a[1..], b, sep);
      assert (a + [sep] + b)[1..] == a[1..] + [sep] + b;
      assert [a[0]] + a[1..] == a;
    }
  }

  /** A character other than the separator joins the first piece. */
  lemma SplitPrefix(c: char, s: string, sep: char)
    requires c != sep
    ensures var pieces := Split(s, sep);
      Split([c] + s, sep) == [[c] + pieces[0]] + pieces[1..]
  {
    assert ([c] + s)[1..] == s;
  }

  // ---------------------------------------------------------------- rows

  /** `ImportRow`: the cells of one row under the five known columns. */
  datatype ImportRow = ImportRow(name: Cell, content: Cell, rating: Cell, duration: Cell, tags: Cell)

  /** `ImportedJoke`: numbers are JavaScript numbers, read as reals. */
  datatype ImportedJoke = ImportedJoke(
    name: string,
    content: Option<string>,
    rating: Option<real>,
    duration: Option<real>,
    tags: seq<string>)

  /** What a row becomes: a joke, an error message, or a `TypeError` thrown
      by calling `trim` on a number where text was expected. */
  datatype RowResult = Accepted(joke: ImportedJoke) | Rejected(error: string) | Throws

  function NameRequired(index: int): string {
    "Row " + IntToString(index + 1) + ": Joke name is required"
  }

  /** The tags of a row, or `None` when the cell is a non-zero number. */
  function TagsOf(c: Cell): Option<seq<string>> {
    match c
    case Empty => Some([])
    case Str(s) => Some(ParseTags(s))
    case Num(n) => if n == 0.0 then Some([]) else None
  }

  /** Content is kept, trimmed, only when it is non-blank text. */
  datatype ContentField = NoContent | Content(text: string) | ContentNotText

  function ContentOf(c: Cell): ContentField {
    match c
    case Empty => NoContent
    case Str(s) => if IsBlank(s) then NoContent else Content(Trim(s))
    case Num(n) => if n == 0.0 then NoContent else ContentNotText
  }

  /** The name is missing or blank: `!row.name || row.name.trim() === ''`. */
  predicate NameMissing(c: Cell) {
    !Truthy(c) || (c.Str? && IsBlank(c.s))
  }

  /** `validateAndTransformRow` */
  function ValidateAndTransformRow(row: ImportRow, index: int): RowResult {
    if NameMissing(row.name) then Rejected(NameRequired(index))
    else if row.name.Num? then Throws
    else
      var tags := TagsOf(row.tags);
      var content := ContentOf(row.content);
      if tags.None? || content.ContentNotText? then Throws
      else Accepted(ImportedJoke(
        Trim(row.name.s),
        if content.Content? then Some(content.text) else None,
        ParseRating(row.rating),
        ParseDuration(row.duration),
        tags.value))
  }

  /** A row is rejected exactly when its name is missing or blank, with the
      message naming row `index + 1`; only a numeric name, content or tags
      cell makes it throw. */
  lemma ValidateRejected(row: ImportRow, index: int)
    ensures var r := ValidateAndTransformRow(row, index);
      && (r.Rejected? <==> NameMissing(row.name))
      && (r.Rejected? ==> r.error == NameRequired(index))
      && (r.Throws? ==> row.name.Num? || row.content.Num? || row.tags.Num?)
  {
  }

  /** An accepted row becomes a joke with the trimmed, non-empty name, the
      parsed tags, content only when non-blank (trimmed), and the parsed
      rating and duration. */
  lemma ValidateAccepted(row: ImportRow, index: int)
    requires ValidateAndTransformRow(row, index).Accepted?
    ensures var joke := ValidateAndTransformRow(row, index).joke;
      && row.name.Str? && joke.name == Trim(row.name.s) && joke.name != ""
      && (joke.content.Some? <==> row.content.Str? && !IsBlank(row.content.s))
      && (joke.content.Some? ==> joke.content.value == Trim(row.content.s) && joke.content.value != "")
      && joke.rating == ParseRating(row.rating)
      && joke.duration == ParseDuration(row.duration)
      && (row.tags.Str? ==> joke.tags == ParseTags(row.tags.s))
  {
    BlankIffAllSpace(row.name.s);
    if row.content.Str? && !IsBlank(row.content.s) {
      assert Trim(row.content.s) != "";
    }
  }

  /** Rows whose cells are text or missing never throw. */
  lemma TextRowNeverThrows(row: ImportRow, index: int)
    requires !row.name.Num? && !row.content.Num? && !row.tags.Num?
    ensures !ValidateAndTransformRow(row, index).Throws?
  {
  }

  // ---------------------------------------------------------------- collecting rows

  /** `ImportResult` */
  datatype ImportResult = ImportResult(jokes: seq<ImportedJoke>, errors: seq<string>)

  /** One step of a row loop: a joke or an error is pushed; a throwing row
      never gets here. */
  function Push(acc: ImportResult, result: RowResult): ImportResult {
    match result
    case Accepted(joke) => acc.(jokes := acc.jokes + [joke])
    case Rejected(error) => acc.(errors := acc.errors + [error])
    case Throws => acc
  }

  /** The jokes and the errors the row loop has pushed after the given
      results, in order. */
  function Collect(results: seq<RowResult>): ImportResult {
    if results == [] then ImportResult([], [])
    else Push(Collect(results[..|results| - 1]), results[|results| - 1])
  }

  lemma CollectPrefix(results: seq<RowResult>, i: int)
    requires 0 <= i < |results|
    ensures Collect(results[..i + 1]) == Push(Collect(results[..i]), results[i])
  {
    assert results[..i + 1][..i] == results[..i];
  }

  predicate IsAccepted(r: RowResult) {
    r.Accepted?
  }

  predicate IsRejected(r: RowResult) {
    r.Rejected?
  }

  /** The collected jokes are those of the accepted rows and the errors those
      of the rejected rows, each in row order; when no row throws, every row
      lands in exactly one of the two. */
  lemma {:induction false} CollectFacts(results: seq<RowResult>)
    ensures var c := Collect(results);
      var accepted, rejected := Filter(results, IsAccepted), Filter(results, IsRejected);
      && |c.jokes| == |accepted| && (forall k :: 0 <= k < |c.jokes| ==> c.jokes[k] == accepted[k].joke)
      && |c.errors| == |rejected| && (forall k :: 0 <= k < |c.errors| ==> c.errors[k] == rejected[k].error)
      && ((forall k :: 0 <= k < |results| ==> !results[k].Throws?) ==> |c.jokes| + |c.errors| == |results|)
    decreases |results|
  {
    if results != [] {
      var init, last := results[..|results| - 1], results[|results| - 1];
      CollectFacts(init);
      assert results == init + [last];
      FilterConcat(init, [last], IsAccepted);
      FilterConcat(init, [last], IsRejected);
      assert Filter([last], IsAccepted) == if last.Accepted? then [last] else [];
      assert Filter([last], IsRejected) == if last.Rejected? then [last] else [];
    }
  }

  /** When no row throws, every row lands in the jokes or the errors. */
  lemma {:induction false} CollectCount(results: seq<RowResult>)
    requires forall k :: 0 <= k < |results| ==> !results[k].Throws?
    ensures |Collect(results).jokes| + |Collect(results).errors| == |results|
    decreases |results|
  {
    if results != [] {
      CollectCount(results[..|results| - 1]);
    }
  }

  // ---------------------------------------------------------------- CSV

  /** A CSV row as `Papa.parse` with `header: true` gives it: text values
      under the header names; a field the row lacks is missing. */
  type CsvRow = map<string, string>

  function CsvCell(row: CsvRow, key: string): Cell {
    if key in row then Str(row[key]) else Empty
  }

  /** `row as ImportRow`: the columns named exactly `name`, `content`,
      `rating`, `duration` and `tags`. */
  function CsvImportRow(row: CsvRow): ImportRow {
    ImportRow(CsvCell(row, "name"), CsvCell(row, "content"), CsvCell(row, "rating"), CsvCell(row, "duration"), CsvCell(row, "tags"))
  }

  function CsvResults(data: seq<CsvRow>): seq<RowResult> {
    seq(|data|, index requires 0 <= index < |data| => ValidateAndTransformRow(CsvImportRow(data[index]), index))
  }

  function ParseErrorMessage(message: string): string {
    "Parse error: " + message
  }

  /** What the `complete` callback of `parseCSV` resolves with. */
  function CsvImport(data: seq<CsvRow>, parseErrors: seq<string>): ImportResult {
    var c := Collect(CsvResults(data));
    ImportResult(c.jokes, c.errors + Map(parseErrors, ParseErrorMessage))
  }

  /** The `complete` callback of `parseCSV`. */
  method CsvComplete(data: seq<CsvRow>, parseErrors: seq<string>) returns (result: ImportResult)
    ensures result == CsvImport(data, parseErrors)
  {
    var jokes: seq<ImportedJoke> := [];
    var errors: seq<string> := [];
    ghost var results := CsvResults(data);
    for index := 0 to |data|
      invariant ImportResult(jokes, errors) == Collect(results[..index])
    {
      CollectPrefix(results, index);
      var r := ValidateAndTransformRow(CsvImportRow(data[index]), index);
      assert r == results[index];
      match r {
        case Rejected(error) => errors := errors + [error];
        case Accepted(joke) => jokes := jokes + [joke];
        case Throws =>
      }
    }
    assert results[..|data|] == results;
    if |parseErrors| > 0 {
      errors := errors + Map(parseErrors, ParseErrorMessage);
    }
    result := ImportResult(jokes, errors);
  }

  /** Every CSV row becomes a joke or an error, in row order, a row's error
      naming its position counted from 1; the library's parse errors follow
      the row errors. */
  lemma CsvImportFacts(data: seq<CsvRow>, parseErrors: seq<string>)
    ensures var r := CsvImport(data, parseErrors);
      var results := CsvResults(data);
      var rowErrors := |Filter(results, IsRejected)|;
      && |r.jokes| + rowErrors == |data|
      && |r.errors| == rowErrors + |parseErrors|
      && (forall k :: 0 <= k < |parseErrors| ==> r.errors[rowErrors + k] == "Parse error: " + parseErrors[k])
      && (forall k :: 0 <= k < |data| ==>
            (results[k].Rejected? <==> NameMissing(CsvCell(data[k], "name")))
            && (results[k].Rejected? ==> results[k].error == NameRequired(k)))
  {
    var results := CsvResults(data);
    forall k | 0 <= k < |data|
      ensures !results[k].Throws?
      ensures results[k].Rejected? <==> NameMissing(CsvCell(data[k], "name"))
      ensures results[k].Rejected? ==> results[k].error == NameRequired(k)
    {
      TextRowNeverThrows(CsvImportRow(data[k]), k);
      ValidateRejected(CsvImportRow(data[k]), k);
    }
    CollectFacts(results);
  }

  // ---------------------------------------------------------------- Excel

  /** The five columns a header can name. */
  datatype Column = NameColumn | ContentColumn | RatingColumn | DurationColumn | TagsColumn

  function ColumnName(column: Column): string {
    match column
    case NameColumn => "name"
    case ContentColumn => "content"
    case RatingColumn => "rating"
    case DurationColumn => "duration"
    case TagsColumn => "tags"
  }

  /** What a header cell selects: a known column, nothing (a missing header
      or an unknown name), or a `TypeError` when the header is a number. */
  datatype HeaderKey = Selects(column: Column) | Ignored | HeaderNotText

  const Columns := [NameColumn, ContentColumn, RatingColumn, DurationColumn, TagsColumn]

  /** The first of the columns whose name is `key`. */
  function FindColumn(key: string, columns: seq<Column>): (r: Option<Column>)
    ensures r.Some? ==> r.value in columns && ColumnName(r.value) == key
    ensures r.None? ==> forall c :: c in columns ==> ColumnName(c) != key
  {
    if columns == [] then None
    else if ColumnName(columns[0]) == key then Some(columns[0])
    else FindColumn(key, columns[1..])
  }

  /** `header?.toLowerCase()?.trim()` matched against the column names. */
  function NormalizeHeader(header: Cell): HeaderKey {
    match header
    case Empty => Ignored
    case Str(s) =>
      var column := FindColumn(Trim(ToLower(s)), Columns);
      if column.Some? then Selects(column.value) else Ignored
    case Num(_) => HeaderNotText
  }

  /** A text header selects a column exactly when, lower-cased and trimmed,
      it is that column's name; its case does not matter. */
  lemma NormalizeHeaderIff(s: string, column: Column)
    ensures NormalizeHeader(Str(s)) == Selects(column) <==> Trim(ToLower(s)) == ColumnName(column)
    ensures NormalizeHeader(Str(ToLower(s))) == NormalizeHeader(Str(s))
  {
    ToLowerIdempotent(s);
    var found := FindColumn(Trim(ToLower(s)), Columns);
    assert column in Columns;
    if found.Some? {
      ColumnNameInjective(found.value, column);
    }
  }

  /** Different columns have different names. */
  lemma ColumnNameInjective(a: Column, b: Column)
    ensures ColumnName(a) == ColumnName(b) ==> a == b
  {
    if a != b {
      var x, y := ColumnName(a), ColumnName(b);
      assert |x| != |y| || x[0] != y[0];
    }
  }

  /** `rowData[index]`, missing past the end of the row. */
  function CellAt(rowData: seq<Cell>, index: nat): Cell {
    if index < |rowData| then rowData[index] else Empty
  }

  /** The field of a column. */
  function Field(row: ImportRow, column: Column): Cell {
    match column
    case NameColumn => row.name
    case ContentColumn => row.content
    case RatingColumn => row.rating
    case DurationColumn => row.duration
    case TagsColumn => row.tags
  }

  /** Sets the field a header selects; other headers are ignored. */
  function SetField(row: ImportRow, key: HeaderKey, cell: Cell): ImportRow {
    match key
    case Selects(NameColumn) => row.(name := cell)
    case Selects(ContentColumn) => row.(content := cell)
    case Selects(RatingColumn) => row.(rating := cell)
    case Selects(DurationColumn) => row.(duration := cell)
    case Selects(TagsColumn) => row.(tags := cell)
    case _ => row
  }

  const EmptyRow := ImportRow(Empty, Empty, Empty, Empty, Empty)

  /** The row the header keys fill from a data row, or `None` once a key
      throws. */
  function FillFields(keys: seq<HeaderKey>, rowData: seq<Cell>): Option<ImportRow> {
    if keys == [] then Some(EmptyRow)
    else
      var prev := FillFields(keys[..|keys| - 1], rowData);
      var index := |keys| - 1;
      if prev.None? || keys[index].HeaderNotText? then None
      else Some(SetField(prev.value, keys[index], CellAt(rowData, index)))
  }

  /** The row `headers.forEach` fills, or `None` when a header is a number
      (its `toLowerCase` call throws). */
  function MapRow(headers: seq<Cell>, rowData: seq<Cell>): Option<ImportRow> {
    FillFields(Map(headers, NormalizeHeader), rowData)
  }

  /** The `headers.forEach` loop for one data row. */
  method FillRow(headers: seq<Cell>, rowData: seq<Cell>) returns (row: Option<ImportRow>)
    ensures row == MapRow(headers, rowData)
  {
    ghost var keys := Map(headers, NormalizeHeader);
    var fields := EmptyRow;
    for index := 0 to |headers|
      invariant FillFields(keys[..index], rowData) == Some(fields)
    {
      FillFieldsPrefix(keys, rowData, index);
      var key := NormalizeHeader(headers[index]);
      assert key == keys[index];
      if key.HeaderNotText? {
        NoFieldsAfterThrow(keys, rowData, index + 1);
        return None;
      }
      fields := SetField(fields, key, CellAt(rowData, index));
    }
    assert keys[..|headers|] == keys;
    row := Some(fields);
  }

  lemma FillFieldsPrefix(keys: seq<HeaderKey>, rowData: seq<Cell>, n: int)
    requires 0 <= n < |keys|
    ensures var prev := FillFields(keys[..n], rowData);
      FillFields(keys[..n + 1], rowData) ==
        if prev.None? || keys[n].HeaderNotText? then None
        else Some(SetField(prev.value, keys[n], CellAt(rowData, n)))
  {
    assert keys[..n + 1][..n] == keys[..n];
  }

  /** Once a prefix of the keys throws, the whole mapping does. */
  lemma {:induction false} NoFieldsAfterThrow(keys: seq<HeaderKey>, rowData: seq<Cell>, n: nat)
    requires n <= |keys| && FillFields(keys[..n], rowData).None?
    ensures FillFields(keys, rowData).None?
    decreases |keys| - n
  {
    if n < |keys| {
      assert keys[..n + 1][..n] == keys[..n];
      NoFieldsAfterThrow(keys, rowData, n + 1);
    } else {
      assert keys[..n] == keys;
    }
  }

  /** Key `k` is the last that selects `column`. */
  predicate LastKeyWith(keys: seq<HeaderKey>, column: Column, k: int) {
    && 0 <= k < |keys| && keys[k] == Selects(column)
    && forall m :: k < m < |keys| ==> keys[m] != Selects(column)
  }

  /** Without a throwing key, each field holds the cell under the last key
      selecting it, and is missing when none does. */
  lemma {:induction false} FillFieldsField(keys: seq<HeaderKey>, rowData: seq<Cell>, column: Column)
    requires forall k :: 0 <= k < |keys| ==> !keys[k].HeaderNotText?
    ensures FillFields(keys, rowData).Some?
    ensures (forall k :: 0 <= k < |keys| ==> keys[k] != Selects(column)) ==>
      Field(FillFields(keys, rowData).value, column) == Empty
    ensures forall k :: LastKeyWith(keys, column, k) ==> Field(FillFields(keys, rowData).value, column) == CellAt(rowData, k)
    decreases |keys|
  {
    if keys != [] {
      var last := |keys| - 1;
      var init := keys[..last];
      assert forall m :: 0 <= m < last ==> init[m] == keys[m];
      FillFieldsField(init, rowData, column);
      var prev := FillFields(init, rowData).value;
      var cell := CellAt(rowData, last);
      assert FillFields(keys, rowData) == Some(SetField(prev, keys[last], cell));
      SetFieldField(prev, keys[last], cell, column);
      forall k | LastKeyWith(keys, column, k) && k < last
        ensures LastKeyWith(init, column, k)
      {
      }
    }
  }

  /** Column `k` is the last whose header selects `column`. */
  predicate LastColumnWith(headers: seq<Cell>, column: Column, k: int) {
    && 0 <= k < |headers| && NormalizeHeader(headers[k]) == Selects(column)
    && forall m :: k < m < |headers| ==> NormalizeHeader(headers[m]) != Selects(column)
  }

  /** With no numeric header, each field holds the cell of the last column
      whose header selects it, and is missing when none does; other columns
      are ignored. */
  lemma MapRowField(headers: seq<Cell>, rowData: seq<Cell>, column: Column)
    requires NoNumbers(headers)
    ensures MapRow(headers, rowData).Some?
    ensures (forall k :: 0 <= k < |headers| ==> NormalizeHeader(headers[k]) != Selects(column)) ==>
      Field(MapRow(headers, rowData).value, column) == Empty
    ensures forall k :: LastColumnWith(headers, column, k) ==> Field(MapRow(headers, rowData).value, column) == CellAt(rowData, k)
  {
    var keys := Map(headers, NormalizeHeader);
    FillFieldsField(keys, rowData, column);
    forall k | LastColumnWith(headers, column, k)
      ensures LastKeyWith(keys, column, k)
    {
    }
  }

  /** Setting a field changes only the column the header selects. */
  lemma SetFieldField(row: ImportRow, key: HeaderKey, cell: Cell, column: Column)
    ensures Field(SetField(row, key, cell), column) == if key == Selects(column) then cell else Field(row, column)
  {
  }

  /** What the data row at sheet position `i` becomes. */
  function ExcelRowResult(headers: seq<Cell>, rowData: seq<Cell>, i: int): RowResult {
    match MapRow(headers, rowData)
    case None => Throws
    case Some(row) => ValidateAndTransformRow(row, i - 1)
  }

  /** The results of the data rows `rows[1..]`. */
  function ExcelResults(rows: seq<seq<Cell>>): seq<RowResult>
    requires |rows| > 0
  {
    seq(|rows| - 1, k requires 0 <= k < |rows| - 1 => ExcelRowResult(rows[0], rows[k + 1], k + 1))
  }

  /** How the promise of `parseExcel` settles: resolved with a result, or
      rejected by a thrown error. */
  datatype Settled = Resolved(result: ImportResult) | Failed

  /** The row loop of `parseExcel`: the first row that throws rejects the promise. */
  function ExcelRows(rows: seq<seq<Cell>>): Settled
    requires |rows| > 0
  {
    var results := ExcelResults(rows);
    if exists k :: 0 <= k < |results| && results[k].Throws? then Failed
    else Resolved(Collect(results))
  }

  /** The `for` loop of `parseExcel` over the data rows. */
  method ExcelRowLoop(rows: seq<seq<Cell>>) returns (settled: Settled)
    requires |rows| > 0
    ensures settled == ExcelRows(rows)
  {
    var headers := rows[0];
    var jokes: seq<ImportedJoke> := [];
    var errors: seq<string> := [];
    ghost var results := ExcelResults(rows);
    var i := 1;
    while i < |rows|
      invariant 1 <= i <= |rows|
      invariant forall k :: 0 <= k < i - 1 ==> !results[k].Throws?
      invariant ImportResult(jokes, errors) == Collect(results[..i - 1])
    {
      CollectPrefix(results, i - 1);
      var result := ExcelRow(headers, rows[i], i);
      ExcelResultAt(rows, i - 1);
      assert results[i - 1] == result;
      if result.Throws? {
        ExcelRowsFail(rows, i - 1);
        return Failed;
      }
      assert forall k :: 0 <= k < i ==> !results[k].Throws?;
      if result.Rejected? {
        errors := errors + [result.error];
      } else {
        jokes := jokes + [result.joke];
      }
      i := i + 1;
    }
    assert results[..i - 1] == results;
    settled := Resolved(ImportResult(jokes, errors));
  }

  /** One pass of the loop body: map the row, then validate it. */
  method ExcelRow(headers: seq<Cell>, rowData: seq<Cell>, i: int) returns (result: RowResult)
    ensures result == ExcelRowResult(headers, rowData, i)
  {
    var row := FillRow(headers, rowData);
    if row.None? {
      return Throws;
    }
    result := ValidateAndTransformRow(row.value, i - 1);
  }

  /** A throwing data row rejects the whole import. */
  lemma ExcelRowsFail(rows: seq<seq<Cell>>, k: int)
    requires |rows| > 0 && 0 <= k < |rows| - 1 && ExcelResults(rows)[k].Throws?
    ensures ExcelRows(rows) == Failed
  {
  }

  /** `parseExcel` once the workbook is read: the first sheet's name and its
      rows (`sheet_to_json` with `header: 1`). */
  function ExcelImport(sheetNames: seq<string>, rows: seq<seq<Cell>>): Settled {
    if sheetNames == [] || sheetNames[0] == "" then Resolved(ImportResult([], ["No sheets found in Excel file"]))
    else if rows == [] then Resolved(ImportResult([], ["Excel file is empty"]))
    else ExcelRows(rows)
  }

  /** Without a sheet, or with an empty sheet, the import yields no jokes and
      one error. With text headers and text cells every data row becomes a
      joke or an error, in order, the error for sheet row `i` naming row `i`. */
  lemma ExcelImportFacts(sheetNames: seq<string>, rows: seq<seq<Cell>>)
    ensures (sheetNames == [] || sheetNames[0] == "") ==>
      ExcelImport(sheetNames, rows) == Resolved(ImportResult([], ["No sheets found in Excel file"]))
    ensures sheetNames != [] && sheetNames[0] != "" && rows == [] ==>
      ExcelImport(sheetNames, rows) == Resolved(ImportResult([], ["Excel file is empty"]))
    ensures sheetNames != [] && sheetNames[0] != "" && rows != [] && TextCells(rows) ==>
      var r := ExcelImport(sheetNames, rows);
      var results := ExcelResults(rows);
      && r.Resolved?
      && |r.result.jokes| + |r.result.errors| == |rows| - 1
      && forall k :: 0 <= k < |results| ==> TextResult(results[k], k)
  {
    if sheetNames != [] && sheetNames[0] != "" && rows != [] && TextCells(rows) {
      var results := ExcelResults(rows);
      ExcelTextResults(rows);
      CollectCount(results);
    }
  }

  /** With text cells only, no data row throws, and a rejected row's error
      names its sheet row. */
  lemma ExcelTextResults(rows: seq<seq<Cell>>)
    requires rows != [] && TextCells(rows)
    ensures var results := ExcelResults(rows);
      forall k :: 0 <= k < |results| ==> TextResult(results[k], k)
  {
    var results := ExcelResults(rows);
    forall k | 0 <= k < |results|
      ensures TextResult(results[k], k)
    {
      assert NoNumbers(rows[0]) && NoNumbers(rows[k + 1]);
      ExcelTextRow(rows[0], rows[k + 1], k);
      ExcelResultAt(rows, k);
    }
  }

  lemma ExcelResultAt(rows: seq<seq<Cell>>, k: int)
    requires 0 <= k < |rows| - 1
    ensures ExcelResults(rows)[k] == ExcelRowResult(rows[0], rows[k + 1], k + 1)
  {
  }

  /** The row did not throw, and if rejected its error names data row `index`. */
  predicate TextResult(r: RowResult, index: int) {
    !r.Throws? && (r.Rejected? ==> r.error == NameRequired(index))
  }

  /** No cell of the sheet is a number. */
  predicate TextCells(rows: seq<seq<Cell>>) {
    forall i :: 0 <= i < |rows| ==> NoNumbers(rows[i])
  }

  /** No cell of the row is a number. */
  predicate NoNumbers(cells: seq<Cell>) {
    forall k :: 0 <= k < |cells| ==> !cells[k].Num?
  }

  lemma ExcelTextRow(headers: seq<Cell>, rowData: seq<Cell>, index: int)
    requires NoNumbers(headers)
    requires NoNumbers(rowData)
    ensures TextResult(ExcelRowResult(headers, rowData, index + 1), index)
  {
    MapRowField(headers, rowData, NameColumn);
    FillFieldsText(Map(headers, NormalizeHeader), rowData);
    ValidateRejected(MapRow(headers, rowData).value, index);
  }

  /** A row filled from text cells has only text cells. */
  lemma {:induction false} FillFieldsText(keys: seq<HeaderKey>, rowData: seq<Cell>)
    requires NoNumbers(rowData)
    ensures FillFields(keys, rowData).Some? ==> TextRow(FillFields(keys, rowData).value)
    decreases |keys|
  {
    if keys != [] {
      var last := |keys| - 1;
      FillFieldsText(keys[..last], rowData);
      var prev := FillFields(keys[..last], rowData);
      if prev.Some? && !keys[last].HeaderNotText? {
        var cell := CellAt(rowData, last);
        assert !cell.Num?;
        SetFieldText(prev.value, keys[last], cell);
      }
    }
  }

  /** No field of the row is a number. */
  predicate TextRow(row: ImportRow) {
    !row.name.Num? && !row.content.Num? && !row.rating.Num? && !row.duration.Num? && !row.tags.Num?
  }

  lemma SetFieldText(row: ImportRow, key: HeaderKey, cell: Cell)
    requires TextRow(row) && !cell.Num?
    ensures TextRow(SetField(row, key, cell))
  {
  }

  // ---------------------------------------------------------------- dispatch

  /** `file.name.split('.').pop()?.toLowerCase()`: the text after the last dot,
      or the whole name when there is none, lower-cased. */
  function Extension(fileName: string): string {
    var pieces := Split(fileName, '.');
    ToLower(pieces[|pieces| - 1])
  }

  function UnsupportedFormat(extension: string): string {
    "Unsupported file format: " + extension + ". Please use CSV or Excel files."
  }

  /** `importJokes`, given what the CSV and Excel libraries would produce from
      the file. */
  function ImportJokes(
    fileName: string,
    csvData: seq<CsvRow>, csvParseErrors: seq<string>,
    sheetNames: seq<string>, sheetRows: seq<seq<Cell>>): Settled
  {
    var extension := Extension(fileName);
    if extension == "csv" then Resolved(CsvImport(csvData, csvParseErrors))
    else if extension == "xlsx" || extension == "xls" then ExcelImport(sheetNames, sheetRows)
    else Resolved(ImportResult([], [UnsupportedFormat(extension)]))
  }

  /** The extension of `base.ext` is `ext` lower-cased, whatever `base` is. */
  lemma ExtensionOfDotted(base: string, ext: string)
    requires '.' !in ext
    ensures Extension(base + "." + ext) == ToLower(ext)
  {
    assert base + "." + ext == base + ['.'] + ext;
    SplitLast(base, ext, '.');
  }

  /** The last piece after a separator is the text after the last separator. */
  lemma {:induction false} SplitLast(a: string, b: string, sep: char)
    requires sep !in b
    ensures var pieces := Split(a + [sep] + b, sep);
      |pieces| >= 2 && pieces[|pieces| - 1] == b
    decreases |a|
  {
    if a == [] {
      assert a + [sep] + b == [sep] + b;
      assert ([sep] + b)[1..] == b;
      SplitNoSeparator(b, sep);
    } else {
      SplitLast(a[1..], b, sep);
      assert (a + [sep] + b)[1..] == a[1..] + [sep] + b;
    }
  }

  /** A `.csv` file (any case) takes the CSV path, `.xlsx` or `.xls` the Excel
      path, and any other extension yields no jokes and one error naming it. */
  lemma ImportDispatch(
    base: string, ext: string,
    csvData: seq<CsvRow>, csvParseErrors: seq<string>,
    sheetNames: seq<string>, sheetRows: seq<seq<Cell>>)
    requires '.' !in ext
    ensures var r := ImportJokes(base + "." + ext, csvData, csvParseErrors, sheetNames, sheetRows);
      && (ToLower(ext) == "csv" ==> r == Resolved(CsvImport(csvData, csvParseErrors)))
      && (ToLower(ext) == "xlsx" || ToLower(ext) == "xls" ==> r == ExcelImport(sheetNames, sheetRows))
      && (ToLower(ext) !in {"csv", "xlsx", "xls"} ==>
            r == Resolved(ImportResult([], [UnsupportedFormat(ToLower(ext))])))
  {
    ExtensionOfDotted(base, ext);
  }
}
