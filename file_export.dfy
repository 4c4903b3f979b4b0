/** Exporting jokes and setlists: the rows written to CSV, the file name
    derived from a setlist's name, the lines of text each joke contributes to
    a document, and the setlist's totals. The rows read back through the
    import path as the jokes they came from. */
module FileExport {
  import opened Wrappers
  import opened Seqs
  import opened Text
  import opened Jokes
  import Duration
  import JokeListUtils
  import FileImport

  // ---------------------------------------------------------------- tag names

  /** `tags.find(t => t.id === id)?.name`, with a missing tag read as the
      empty (falsy) name. */
  function TagName(tags: seq<Tag>, id: string): string {
    match JokeListUtils.FindTagById(tags, id)
    case Some(tag) => tag.name
    case None => ""
  }

  /** Each id resolved to its tag's name. */
  function ResolvedNames(tagIds: seq<string>, tags: seq<Tag>): seq<string> {
    Map(tagIds, id => TagName(tags, id))
  }

  /** The names `getTagNames` joins: each id resolved, falsy names dropped. */
  function TagNameList(tagIds: seq<string>, tags: seq<Tag>): seq<string> {
    Filter(ResolvedNames(tagIds, tags), FileImport.NonEmpty)
  }

  /** `getTagNames` */
  function GetTagNames(tagIds: seq<string>, tags: seq<Tag>): string {
    Join(TagNameList(tagIds, tags), ", ")
  }

  /** An id resolves to the name of the first tag with that id, and to the
      empty name when no tag has it. */
  lemma TagNameFacts(tags: seq<Tag>, id: string)
    ensures (forall t :: t in tags ==> t.id != id) ==> TagName(tags, id) == ""
    ensures forall t :: JokeListUtils.FirstTagWithId(tags, id, t) ==> TagName(tags, id) == t.name
    ensures TagName(tags, id) != "" ==> exists t :: t in tags && t.id == id && t.name == TagName(tags, id)
  {
    JokeListUtils.FindTagByIdFirst(tags, id);
  }

  /** The names keep the order of the ids, and a name is listed exactly when
      it is the non-empty name some id resolves to. */
  lemma TagNameListFacts(tagIds: seq<string>, tags: seq<Tag>)
    ensures var names := TagNameList(tagIds, tags);
      && IsSubsequence(names, ResolvedNames(tagIds, tags))
      && (forall n :: n in names <==> n != "" && exists i :: 0 <= i < |tagIds| && TagName(tags, tagIds[i]) == n)
  {
    var resolved := ResolvedNames(tagIds, tags);
    FilterSubsequence(resolved, FileImport.NonEmpty);
    FilterMembership(resolved, FileImport.NonEmpty);
    ResolvedMembers(tagIds, tags);
  }

  lemma ResolvedMembers(tagIds: seq<string>, tags: seq<Tag>)
    ensures forall n :: n in ResolvedNames(tagIds, tags) <==> exists i :: 0 <= i < |tagIds| && TagName(tags, tagIds[i]) == n
  {
    var resolved := ResolvedNames(tagIds, tags);
    assert forall i :: 0 <= i < |tagIds| ==> resolved[i] == TagName(tags, tagIds[i]);
  }

  /** Every listed name is the name of a tag whose id is among the ids. */
  lemma TagNamesAreTagNames(tagIds: seq<string>, tags: seq<Tag>)
    ensures forall n :: n in TagNameList(tagIds, tags) ==> n != "" && exists t :: t in tags && t.id in tagIds && t.name == n
  {
    TagNameListFacts(tagIds, tags);
    forall n | n in TagNameList(tagIds, tags)
      ensures n != "" && exists t :: t in tags && t.id in tagIds && t.name == n
    {
      var i :| 0 <= i < |tagIds| && TagName(tags, tagIds[i]) == n;
      TagNameFacts(tags, tagIds[i]);
    }
  }

  /** The joined text is empty exactly when no id resolves to a non-empty name. */
  lemma GetTagNamesEmpty(tagIds: seq<string>, tags: seq<Tag>)
    ensures GetTagNames(tagIds, tags) == "" <==> TagNameList(tagIds, tags) == []
  {
    var names := TagNameList(tagIds, tags);
    if names != [] {
      assert FileImport.NonEmpty(names[0]);
      FileImport.JoinStartsWith(names);
    }
  }

  // ---------------------------------------------------------------- export rows

  /** `JokeExportRow`: every column is text. */
  datatype ExportRow = ExportRow(name: string, content: string, rating: string, duration: string, tags: string)

  /** `jokeToExportRow`: missing content, rating or duration become the empty
      text; a rating or duration of 0 is written as "0". */
  function JokeToExportRow(joke: Joke, tags: seq<Tag>): ExportRow {
    ExportRow(
      joke.name,
      joke.content.GetOr(""),
      match joke.rating case Some(r) => IntToString(r) case None => "",
      match joke.duration case Some(d) => NatToString(d) case None => "",
      GetTagNames(joke.tags, tags))
  }

  /** The name is copied; each optional column is empty exactly when the value
      is missing (or, for content, empty), and otherwise reads back through
      `parseInt` or `parseFloat` as the value. */
  lemma ExportRowFacts(joke: Joke, tags: seq<Tag>)
    ensures var row := JokeToExportRow(joke, tags);
      && row.name == joke.name
      && (row.content == "" <==> joke.content.None? || joke.content.value == "")
      && (joke.content.Some? ==> row.content == joke.content.value)
      && (row.rating == "" <==> joke.rating.None?)
      && (joke.rating.Some? ==> FileImport.ParseInt(row.rating) == FileImport.Finite(joke.rating.value as real))
      && (row.duration == "" <==> joke.duration.None?)
      && (joke.duration.Some? ==> FileImport.ParseFloat(row.duration) == FileImport.Finite(joke.duration.value as real))
  {
    if joke.rating.Some? {
      FileImport.ParseIntOfInt(joke.rating.value);
    }
    if joke.duration.Some? {
      FileImport.ParseFloatOfNat(joke.duration.value);
    }
  }

  /** The cells the CSV import sees for an exported row. */
  function AsImportRow(row: ExportRow): FileImport.ImportRow {
    FileImport.ImportRow(
      FileImport.Str(row.name), FileImport.Str(row.content), FileImport.Str(row.rating),
      FileImport.Str(row.duration), FileImport.Str(row.tags))
  }

  function RealOption(value: Option<int>): Option<real> {
    match value
    case Some(v) => Some(v as real)
    case None => None
  }

  /** The joke the import builds back from an exported row. */
  function Reimported(joke: Joke, tags: seq<Tag>): FileImport.ImportedJoke {
    FileImport.ImportedJoke(
      joke.name,
      if joke.content == Some("") then None else joke.content,
      RealOption(joke.rating),
      RealOption(joke.duration),
      TagNameList(joke.tags, tags))
  }

  /** A joke with a trimmed name and content, a rating in [1, 5], a positive
      duration, and tags whose names are trimmed and free of commas is
      exported as a row that the import turns back into the same joke, its
      tags as their names. */
  lemma ExportImportRoundTrip(joke: Joke, tags: seq<Tag>, index: int)
    requires joke.name != "" && Trim(joke.name) == joke.name
    requires joke.content.None? || Trim(joke.content.value) == joke.content.value
    requires joke.rating.None? || 1 <= joke.rating.value <= 5
    requires joke.duration.None? || joke.duration.value > 0
    requires forall t :: t in tags ==> ',' !in t.name && Trim(t.name) == t.name
    ensures FileImport.ValidateAndTransformRow(AsImportRow(JokeToExportRow(joke, tags)), index)
      == FileImport.Accepted(Reimported(joke, tags))
  {
    var cells := AsImportRow(JokeToExportRow(joke, tags));
    NotBlank(joke.name);
    FileImport.ValidateRejected(cells, index);
    var r := FileImport.ValidateAndTransformRow(cells, index);
    assert r.Accepted?;
    FileImport.ValidateAccepted(cells, index);
    var expected := Reimported(joke, tags);
    RoundTripContent(joke, tags);
    RoundTripNumbers(joke, tags);
    RoundTripTags(joke, tags);
    assert r.joke.name == expected.name;
    assert r.joke == expected;
  }

  lemma RoundTripContent(joke: Joke, tags: seq<Tag>)
    requires joke.content.None? || Trim(joke.content.value) == joke.content.value
    ensures var c := FileImport.Str(JokeToExportRow(joke, tags).content);
      (c.Str? && !IsBlank(c.s) <==> joke.content.Some? && joke.content.value != "")
      && (joke.content.Some? && joke.content.value != "" ==> Trim(c.s) == joke.content.value)
  {
    if joke.content.Some? && joke.content.value != "" {
      NotBlank(joke.content.value);
    }
  }

  lemma RoundTripNumbers(joke: Joke, tags: seq<Tag>)
    requires joke.rating.None? || 1 <= joke.rating.value <= 5
    requires joke.duration.None? || joke.duration.value > 0
    ensures FileImport.ParseRating(FileImport.Str(JokeToExportRow(joke, tags).rating)) == RealOption(joke.rating)
    ensures FileImport.ParseDuration(FileImport.Str(JokeToExportRow(joke, tags).duration)) == RealOption(joke.duration)
  {
    var row := JokeToExportRow(joke, tags);
    FileImport.ParseRatingFacts(FileImport.Str(row.rating));
    FileImport.ParseDurationFacts(FileImport.Str(row.duration));
  }

  lemma RoundTripTags(joke: Joke, tags: seq<Tag>)
    requires forall t :: t in tags ==> ',' !in t.name && Trim(t.name) == t.name
    ensures FileImport.ParseTags(JokeToExportRow(joke, tags).tags) == TagNameList(joke.tags, tags)
  {
    var names := TagNameList(joke.tags, tags);
    TagNamesAreTagNames(joke.tags, tags);
    forall n | n in names
      ensures n != "" && ',' !in n && Trim(n) == n
    {
      var t :| t in tags && t.id in joke.tags && t.name == n;
    }
    FileImport.ParseTagsOfJoined(names);
  }

  /** A non-empty trimmed text is not blank. */
  lemma NotBlank(s: string)
    requires s != "" && Trim(s) == s
    ensures !IsBlank(s)
  {
  }

  // ---------------------------------------------------------------- file names

  /** One character of `replace(/[^a-z0-9]/gi, '_')`. */
  function SanitizeChar(c: char): char {
    if IsAlphanumeric(c) then c else '_'
  }

  /** The setlist name with every character outside [A-Za-z0-9] replaced by '_'. */
  function SanitizeFileName(name: string): string {
    Map(name, SanitizeChar)
  }

  /** The sanitised name has the same length, keeps letters and digits in
      place, replaces everything else by '_', and is left alone by a second
      sanitisation. */
  lemma SanitizeFileNameFacts(name: string)
    ensures var r := SanitizeFileName(name);
      && |r| == |name|
      && (forall i :: 0 <= i < |name| ==> (r[i] == name[i] <==> IsAlphanumeric(name[i]) || name[i] == '_'))
      && (forall i :: 0 <= i < |name| ==> IsAlphanumeric(r[i]) || r[i] == '_')
      && SanitizeFileName(r) == r
      && '.' !in r
  {
    var r := SanitizeFileName(name);
    assert forall i :: 0 <= i < |r| ==> SanitizeFileName(r)[i] == r[i];
    assert forall i :: 0 <= i < |r| ==> r[i] != '.';
  }

  /** `${setlist.name.replace(/[^a-z0-9]/gi, '_')}.csv` */
  function CsvFileName(setlistName: string): string {
    SanitizeFileName(setlistName) + ".csv"
  }

  /** The exported setlist file imports through the CSV path. */
  lemma CsvFileNameImports(setlistName: string)
    ensures FileImport.Extension(CsvFileName(setlistName)) == "csv"
  {
    SanitizeFileNameFacts(setlistName);
    var base := SanitizeFileName(setlistName);
    FileImport.ExtensionOfDotted(base, "csv");
    assert base + "." + "csv" == CsvFileName(setlistName);
    var lower := ToLower("csv");
    assert lower[0] == 'c' && lower[1] == 's' && lower[2] == 'v';
    assert lower == "csv";
  }

  // ---------------------------------------------------------------- document lines

  /** One part of a joke's metadata line. */
  datatype MetaPart = RatingPart(rating: int) | DurationPart(seconds: int) | TagsPart(names: string)

  function PartText(part: MetaPart): string {
    match part
    case RatingPart(r) => "Rating: " + IntToString(r) + "/5"
    case DurationPart(d) => "Duration: " + Duration.FormatSecondsToMMSS(d)
    case TagsPart(names) => "Tags: " + names
  }

  /** The parts `createJokeParagraphs` pushes onto `metaParts`: a rating or a
      duration only when truthy (present and non-zero), the tag names only
      when non-empty. */
  function MetaParts(joke: Joke, tags: seq<Tag>): seq<MetaPart> {
    PartsOf(RatingOrZero(joke), DurationOrZero(joke), GetTagNames(joke.tags, tags))
  }

  /** The parts for a rating, a duration and tag names, each 0 or "" when absent. */
  function PartsOf(rating: int, seconds: int, tagNames: string): seq<MetaPart> {
    (if rating != 0 then [RatingPart(rating)] else [])
    + (if seconds != 0 then [DurationPart(seconds)] else [])
    + (if tagNames != "" then [TagsPart(tagNames)] else [])
  }

  function PartRank(part: MetaPart): nat {
    match part
    case RatingPart(_) => 0
    case DurationPart(_) => 1
    case TagsPart(_) => 2
  }

  /** Each part is present exactly when its value is truthy, carries that
      value, and the parts come in the order rating, duration, tags. */
  lemma MetaPartsFacts(joke: Joke, tags: seq<Tag>)
    ensures var parts := MetaParts(joke, tags);
      && |parts| <= 3
      && (forall i, j :: 0 <= i < j < |parts| ==> PartRank(parts[i]) < PartRank(parts[j]))
      && ((exists k :: 0 <= k < |parts| && parts[k].RatingPart?) <==> joke.rating.Some? && joke.rating.value != 0)
      && ((exists k :: 0 <= k < |parts| && parts[k].DurationPart?) <==> joke.duration.Some? && joke.duration.value != 0)
      && ((exists k :: 0 <= k < |parts| && parts[k].TagsPart?) <==> TagNameList(joke.tags, tags) != [])
      && (forall k :: 0 <= k < |parts| && parts[k].RatingPart? ==> parts[k].rating == joke.rating.value)
      && (forall k :: 0 <= k < |parts| && parts[k].DurationPart? ==> parts[k].seconds == joke.duration.value)
      && (forall k :: 0 <= k < |parts| && parts[k].TagsPart? ==> parts[k].names == GetTagNames(joke.tags, tags))
  {
    GetTagNamesEmpty(joke.tags, tags);
    PartsOfOrder(RatingOrZero(joke), DurationOrZero(joke), GetTagNames(joke.tags, tags));
    PartsOfPresence(RatingOrZero(joke), DurationOrZero(joke), GetTagNames(joke.tags, tags));
  }

  /** At most three parts, in rank order, each carrying its value. */
  lemma PartsOfOrder(rating: int, seconds: int, tagNames: string)
    ensures var parts := PartsOf(rating, seconds, tagNames);
      && |parts| <= 3
      && (forall i, j :: 0 <= i < j < |parts| ==> PartRank(parts[i]) < PartRank(parts[j]))
      && (forall k :: 0 <= k < |parts| && parts[k].RatingPart? ==> parts[k].rating == rating)
      && (forall k :: 0 <= k < |parts| && parts[k].DurationPart? ==> parts[k].seconds == seconds)
      && (forall k :: 0 <= k < |parts| && parts[k].TagsPart? ==> parts[k].names == tagNames)
  {
  }

  /** A part of each kind is present exactly when its value is truthy. */
  lemma PartsOfPresence(rating: int, seconds: int, tagNames: string)
    ensures var parts := PartsOf(rating, seconds, tagNames);
      && ((exists k :: 0 <= k < |parts| && parts[k].RatingPart?) <==> rating != 0)
      && ((exists k :: 0 <= k < |parts| && parts[k].DurationPart?) <==> seconds != 0)
      && ((exists k :: 0 <= k < |parts| && parts[k].TagsPart?) <==> tagNames != "")
  {
    var parts := PartsOf(rating, seconds, tagNames);
    PartsOfOrder(rating, seconds, tagNames);
    if rating != 0 {
      assert parts[0].RatingPart?;
    }
    if seconds != 0 {
      assert parts[if rating != 0 then 1 else 0].DurationPart?;
    }
    if tagNames != "" {
      assert parts[|parts| - 1].TagsPart?;
    }
  }

  /** The metadata line: the parts joined by " | ", or no line at all. */
  function MetaLine(joke: Joke, tags: seq<Tag>): Option<string> {
    var parts := MetaParts(joke, tags);
    if |parts| > 0 then Some(Join(Map(parts, PartText), " | ")) else None
  }

  /** The text of the name paragraph: numbered from 1 in a setlist. */
  function NameText(joke: Joke, index: Option<nat>): string {
    match index
    case Some(i) => IntToString(i + 1) + ". " + joke.name
    case None => joke.name
  }

  /** The paragraphs `createJokeParagraphs` returns, as their texts. */
  function JokeParagraphs(joke: Joke, tags: seq<Tag>, index: Option<nat>): seq<string> {
    [NameText(joke, index)] + ContentParagraphs(joke) + LineParagraphs(MetaLine(joke, tags))
  }

  /** The content paragraph, when the content is non-empty. */
  function ContentParagraphs(joke: Joke): seq<string> {
    if joke.content.Some? && joke.content.value != "" then [joke.content.value] else []
  }

  /** The metadata paragraph, when there is a metadata line. */
  function LineParagraphs(line: Option<string>): seq<string> {
    if line.Some? then [line.value] else []
  }

  /** The `metaParts` pushes of `createJokeParagraphs`. */
  method CollectMetaParts(joke: Joke, tags: seq<Tag>) returns (metaParts: seq<string>)
    ensures metaParts == Map(MetaParts(joke, tags), PartText)
  {
    metaParts := [];
    ghost var parts: seq<MetaPart> := [];
    var rating, duration := RatingOrZero(joke), DurationOrZero(joke);
    if rating != 0 {
      PushPart(parts, RatingPart(rating));
      parts := parts + [RatingPart(rating)];
      metaParts := metaParts + [PartText(RatingPart(rating))];
    }
    assert parts == if rating != 0 then [RatingPart(rating)] else [];
    assert metaParts == Map(parts, PartText);
    if duration != 0 {
      PushPart(parts, DurationPart(duration));
      parts := parts + [DurationPart(duration)];
      metaParts := metaParts + [PartText(DurationPart(duration))];
    }
    assert metaParts == Map(parts, PartText);
    var tagNames := GetTagNames(joke.tags, tags);
    if tagNames != "" {
      PushPart(parts, TagsPart(tagNames));
      parts := parts + [TagsPart(tagNames)];
      metaParts := metaParts + [PartText(TagsPart(tagNames))];
    }
    assert parts == PartsOf(rating, duration, tagNames);
  }

  /** The metadata line from the texts of the parts. */
  lemma MetaLineOfTexts(joke: Joke, tags: seq<Tag>, metaParts: seq<string>)
    requires metaParts == Map(MetaParts(joke, tags), PartText)
    ensures MetaLine(joke, tags) == if |metaParts| > 0 then Some(Join(metaParts, " | ")) else None
  {
  }

  lemma PushPart(parts: seq<MetaPart>, part: MetaPart)
    ensures Map(parts + [part], PartText) == Map(parts, PartText) + [PartText(part)]
  {
    MapConcat(parts, [part], PartText);
  }

  /** `createJokeParagraphs`, keeping the text of each paragraph. */
  method CreateJokeParagraphs(joke: Joke, tags: seq<Tag>, index: Option<nat>) returns (paragraphs: seq<string>)
    ensures paragraphs == JokeParagraphs(joke, tags, index)
  {
    paragraphs := [];
    var nameText := if index.Some? then IntToString(index.value + 1) + ". " + joke.name else joke.name;
    paragraphs := paragraphs + [nameText];
    if joke.content.Some? && joke.content.value != "" {
      paragraphs := paragraphs + [joke.content.value];
    }
    ghost var head := paragraphs;
    assert head == [NameText(joke, index)] + ContentParagraphs(joke);
    var metaParts := CollectMetaParts(joke, tags);
    ghost var line := MetaLine(joke, tags);
    MetaLineOfTexts(joke, tags, metaParts);
    if |metaParts| > 0 {
      paragraphs := paragraphs + [Join(metaParts, " | ")];
    }
    assert paragraphs == head + LineParagraphs(line);
  }

  /** A joke gives one to three paragraphs: the name (numbered when an index
      is given), the content when non-empty, and the metadata line when some
      part is truthy; a duration part shows text that reads back as the
      duration. */
  lemma JokeParagraphsFacts(joke: Joke, tags: seq<Tag>, index: Option<nat>)
    ensures var p := JokeParagraphs(joke, tags, index);
      && 1 <= |p| <= 3
      && p[0] == NameText(joke, index)
      && (index.None? ==> p[0] == joke.name)
      && (|p| > 1 && joke.content.Some? && joke.content.value != "" ==> p[1] == joke.content.value)
      && (|p| == 1 <==> (joke.content.None? || joke.content.value == "") && MetaParts(joke, tags) == [])
      && (MetaLine(joke, tags).None? <==>
            RatingOrZero(joke) == 0 && DurationOrZero(joke) == 0 && TagNameList(joke.tags, tags) == [])
      && (joke.duration.Some? && joke.duration.value > 0 ==>
            Duration.ParseMMSSToSeconds(Duration.FormatSecondsToMMSS(joke.duration.value)) == Ok(joke.duration.value))
  {
    GetTagNamesEmpty(joke.tags, tags);
    if joke.duration.Some? {
      Duration.ParseFormatRoundTrip(joke.duration.value);
    }
  }

  // ---------------------------------------------------------------- setlist totals

  /** `setlist.jokes.reduce((sum, j) => sum + (j.duration || 0), 0)`, a left fold. */
  function ReduceDuration(jokes: seq<Joke>): int {
    if jokes == [] then 0 else ReduceDuration(jokes[..|jokes| - 1]) + DurationOrZero(jokes[|jokes| - 1])
  }

  /** The fold equals the total duration, as the list statistics report it,
      and is never negative. */
  lemma {:induction false} ReduceDurationTotal(jokes: seq<Joke>)
    ensures ReduceDuration(jokes) == TotalDuration(jokes)
    ensures ReduceDuration(jokes) == JokeListUtils.CalculateStats(jokes).totalDuration
    ensures ReduceDuration(jokes) >= 0
    decreases |jokes|
  {
    if jokes != [] {
      var init := jokes[..|jokes| - 1];
      ReduceDurationTotal(init);
      assert jokes == init + [jokes[|jokes| - 1]];
      TotalDurationConcat(init, [jokes[|jokes| - 1]]);
    }
    TotalDurationNonNegative(jokes);
  }

  lemma TotalDurationConcat(a: seq<Joke>, b: seq<Joke>)
    ensures TotalDuration(a + b) == TotalDuration(a) + TotalDuration(b)
  {
    SumConcat(a, b, DurationOrZero);
  }
}
