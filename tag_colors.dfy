/** Colours for tags: the fixed palette, the case-insensitive lookup of an
    existing tag's colour, and the batch assignment that hands out unused
    palette colours to new tag names before cycling through the palette. */
module TagColors {
  import opened Wrappers
  import opened Seqs
  import opened Text
  import opened Jokes

  /** The predefined palette, in order. */
  const TagColors: seq<string> := [
    "#FF6B6B", "#4ECDC4", "#45B7D1", "#96CEB4", "#FFEAA7",
    "#DDA0DD", "#98D8C8", "#F7DC6F", "#BB8FCE", "#85C1E9",
    "#F8C471", "#82E0AA", "#F1948A", "#85929E", "#D7BDE2"]

  /** The palette has fifteen colours, no two alike. */
  lemma PaletteDistinct()
    ensures |TagColors| == 15
    ensures forall i, j :: 0 <= i < j < |TagColors| ==> TagColors[i] != TagColors[j]
  {
    forall i, j | 0 <= i < j < |TagColors|
      ensures TagColors[i] != TagColors[j]
    {
      // Every pair differs within its first three characters.
      assert TagColors[i][1] != TagColors[j][1] || TagColors[i][2] != TagColors[j][2] || TagColors[i][3] != TagColors[j][3];
    }
  }

  // ---------------------------------------------------------------- lookup

  /** `tag.name.toLowerCase() === tagName.toLowerCase()` */
  predicate SameName(tag: Tag, tagName: string) {
    ToLower(tag.name) == ToLower(tagName)
  }

  /** `findExistingTagColor`: the colour of the first tag named `tagName` up to
      case, or `None` when there is no such tag or its colour is empty. */
  function FindExistingTagColor(tagName: string, existingTags: seq<Tag>): (r: Option<string>)
    ensures r.Some? ==> r.value != "" && exists t :: t in existingTags && SameName(t, tagName) && t.color == r.value
  {
    if existingTags == [] then None
    else if SameName(existingTags[0], tagName) then
      if existingTags[0].color == "" then None else Some(existingTags[0].color)
    else FindExistingTagColor(tagName, existingTags[1..])
  }

  /** `k` is the first tag named `tagName` up to case. */
  predicate FirstMatch(existingTags: seq<Tag>, tagName: string, k: int) {
    && 0 <= k < |existingTags| && SameName(existingTags[k], tagName)
    && forall j :: 0 <= j < k ==> !SameName(existingTags[j], tagName)
  }

  /** The lookup finds nothing when no tag has the name, and otherwise gives
      the first such tag's colour unless that colour is empty. */
  lemma {:induction false} FindExistingTagColorSpec(tagName: string, existingTags: seq<Tag>)
    ensures (forall k :: 0 <= k < |existingTags| ==> !SameName(existingTags[k], tagName)) ==>
      FindExistingTagColor(tagName, existingTags) == None
    ensures forall k :: FirstMatch(existingTags, tagName, k) ==>
      FindExistingTagColor(tagName, existingTags) ==
        if existingTags[k].color == "" then None else Some(existingTags[k].color)
    decreases |existingTags|
  {
    if existingTags != [] {
      var rest := existingTags[1..];
      FindExistingTagColorSpec(tagName, rest);
      if !SameName(existingTags[0], tagName) {
        forall k | FirstMatch(existingTags, tagName, k)
          ensures FirstMatch(rest, tagName, k - 1)
        {
          assert k != 0;
          forall j | 0 <= j < k - 1
            ensures !SameName(rest[j], tagName)
          {
            assert rest[j] == existingTags[j + 1];
          }
        }
        if forall k :: 0 <= k < |existingTags| ==> !SameName(existingTags[k], tagName) {
          forall k | 0 <= k < |rest|
            ensures !SameName(rest[k], tagName)
          {
            assert rest[k] == existingTags[k + 1];
          }
        }
      }
    }
  }

  lemma LowerCharIdempotent(c: char)
    ensures LowerChar(LowerChar(c)) == LowerChar(c)
  {
  }

  /** The lookup ignores the case of the name asked for. */
  lemma FindIgnoresCase(tagName: string, existingTags: seq<Tag>)
    ensures FindExistingTagColor(ToLower(tagName), existingTags) == FindExistingTagColor(tagName, existingTags)
  {
    var lower := ToLower(tagName);
    forall i | 0 <= i < |tagName|
      ensures ToLower(lower)[i] == ToLower(tagName)[i]
    {
      LowerCharIdempotent(tagName[i]);
    }
    assert ToLower(lower) == ToLower(tagName);
    forall t
      ensures SameName(t, lower) == SameName(t, tagName)
    {
    }
    FindSameResult(lower, tagName, existingTags);
  }

  /** Two names that match the same tags look up the same colour. */
  lemma {:induction false} FindSameResult(a: string, b: string, existingTags: seq<Tag>)
    requires forall t :: SameName(t, a) == SameName(t, b)
    ensures FindExistingTagColor(a, existingTags) == FindExistingTagColor(b, existingTags)
    decreases |existingTags|
  {
    if existingTags != [] {
      FindSameResult(a, b, existingTags[1..]);
    }
  }

  // ---------------------------------------------------------------- single colour

  /** `generateRandomTagColor`, given the `Math.random()` value `draw`. */
  function RandomTagColor(draw: real): (r: string)
    requires 0.0 <= draw < 1.0
    ensures r in TagColors
  {
    var k := (draw * |TagColors| as real).Floor;
    assert 0 <= k < |TagColors|;
    TagColors[k]
  }

  /** `getTagColor`: the existing colour, or a random palette colour. */
  function GetTagColor(tagName: string, existingTags: seq<Tag>, draw: real): string
    requires 0.0 <= draw < 1.0
  {
    match FindExistingTagColor(tagName, existingTags)
    case Some(c) => c
    case None => RandomTagColor(draw)
  }

  /** A name with an existing colour keeps it; any other name gets a palette colour. */
  lemma GetTagColorFacts(tagName: string, existingTags: seq<Tag>, draw: real)
    requires 0.0 <= draw < 1.0
    ensures var found := FindExistingTagColor(tagName, existingTags);
      && (found.Some? ==> GetTagColor(tagName, existingTags, draw) == found.value)
      && (found.None? ==> GetTagColor(tagName, existingTags, draw) in TagColors)
  {
  }

  // ---------------------------------------------------------------- batch assignment

  /** The colours of the existing tags. */
  function UsedColors(existingTags: seq<Tag>): set<string> {
    set t | t in existingTags :: t.color
  }

  /** The palette colours no existing tag uses, in palette order. */
  function AvailableColors(existingTags: seq<Tag>): seq<string> {
    Filter(TagColors, c => c !in UsedColors(existingTags))
  }

  /** The available colours are exactly the palette colours no existing tag uses. */
  lemma AvailableColorsMembers(existingTags: seq<Tag>)
    ensures forall c :: c in AvailableColors(existingTags) <==> c in TagColors && c !in UsedColors(existingTags)
  {
    FilterIsSubsequence(TagColors, c => c !in UsedColors(existingTags));
  }

  /** No two available colours are alike. */
  lemma AvailableColorsDistinct(existingTags: seq<Tag>)
    ensures var available := AvailableColors(existingTags);
      forall i, j :: 0 <= i < j < |available| ==> available[i] != available[j]
  {
    FilterIsSubsequence(TagColors, c => c !in UsedColors(existingTags));
    DistinctSubsequence(AvailableColors(existingTags), TagColors);
  }

  /** A subsequence of the palette has no two colours alike. */
  lemma DistinctSubsequence(r: seq<string>, s: seq<string>)
    requires IsSubsequence(r, s) && s == TagColors
    ensures forall i, j :: 0 <= i < j < |r| ==> r[i] != r[j]
  {
    var differ := (x: string, y: string) => x != y;
    PaletteDistinct();
    assert forall i, j :: 0 <= i < j < |s| ==> differ(s[i], s[j]);
    SubsequencePairs(r, s, differ);
    assert forall i, j :: 0 <= i < j < |r| ==> differ(r[i], r[j]);
  }

  /** The colour for the `k`-th new name: the `k`-th available colour while
      there is one, then the palette cycled. */
  function NewColor(available: seq<string>, k: nat): string {
    if k < |available| then available[k] else TagColors[k % |TagColors|]
  }

  /** The record built so far and the value of `colorIndex`. */
  datatype Assignment = Assignment(colors: map<string, string>, next: nat)

  /** Whether a name has no existing colour and so takes a new one. */
  predicate IsNew(existingTags: seq<Tag>, tagName: string) {
    FindExistingTagColor(tagName, existingTags).None?
  }

  /** What `generateTagColors` has built after the names `tagNames`. */
  function Assign(tagNames: seq<string>, existingTags: seq<Tag>): Assignment {
    if tagNames == [] then Assignment(map[], 0)
    else
      var prev := Assign(tagNames[..|tagNames| - 1], existingTags);
      var tagName := tagNames[|tagNames| - 1];
      match FindExistingTagColor(tagName, existingTags)
      case Some(c) => Assignment(prev.colors[tagName := c], prev.next)
      case None =>
        var c := NewColor(AvailableColors(existingTags), prev.next);
        Assignment(prev.colors[tagName := c], prev.next + 1)
  }

  /** `generateTagColors` */
  method GenerateTagColors(tagNames: seq<string>, existingTags: seq<Tag>) returns (result: map<string, string>)
    ensures result == Assign(tagNames, existingTags).colors
  {
    var usedColors := set t | t in existingTags :: t.color;
    var availableColors := Filter(TagColors, c => c !in usedColors);
    assert availableColors == AvailableColors(existingTags);
    result := map[];
    var colorIndex := 0;
    for i := 0 to |tagNames|
      invariant Assignment(result, colorIndex) == Assign(tagNames[..i], existingTags)
    {
      var tagName := tagNames[i];
      assert tagNames[..i + 1][..i] == tagNames[..i];
      var existingColor := FindExistingTagColor(tagName, existingTags);
      if existingColor.Some? {
        result := result[tagName := existingColor.value];
      } else {
        if colorIndex < |availableColors| {
          result := result[tagName := availableColors[colorIndex]];
        } else {
          result := result[tagName := TagColors[colorIndex % |TagColors|]];
        }
        colorIndex := colorIndex + 1;
      }
    }
    assert tagNames[..|tagNames|] == tagNames;
  }

  /** How many of `tagNames` take a new colour. */
  function NewCount(tagNames: seq<string>, existingTags: seq<Tag>): nat {
    |Filter(tagNames, n => IsNew(existingTags, n))|
  }

  lemma NewCountSnoc(tagNames: seq<string>, tagName: string, existingTags: seq<Tag>)
    ensures NewCount(tagNames + [tagName], existingTags) ==
      NewCount(tagNames, existingTags) + if IsNew(existingTags, tagName) then 1 else 0
  {
    FilterConcat(tagNames, [tagName], n => IsNew(existingTags, n));
  }

  /** The record has exactly the names as keys, and `colorIndex` ends at the
      number of new names. */
  lemma {:induction false} AssignKeys(tagNames: seq<string>, existingTags: seq<Tag>)
    ensures Assign(tagNames, existingTags).colors.Keys == set n | n in tagNames
    ensures Assign(tagNames, existingTags).next == NewCount(tagNames, existingTags)
    decreases |tagNames|
  {
    if tagNames != [] {
      var init := tagNames[..|tagNames| - 1];
      AssignKeys(init, existingTags);
      assert tagNames == init + [tagNames[|tagNames| - 1]];
      NewCountSnoc(init, tagNames[|tagNames| - 1], existingTags);
    }
  }

  /** `j` is the last position at which its name appears. */
  predicate LastOccurrence(tagNames: seq<string>, j: int) {
    0 <= j < |tagNames| && forall k :: j < k < |tagNames| ==> tagNames[k] != tagNames[j]
  }

  /** The colour a name ends up with is decided at its last occurrence: the
      existing colour when there is one, and otherwise the new colour for the
      number of new names before that occurrence. */
  lemma {:induction false} AssignEntry(tagNames: seq<string>, existingTags: seq<Tag>, j: int)
    requires LastOccurrence(tagNames, j)
    ensures var tagName := tagNames[j];
      var colors := Assign(tagNames, existingTags).colors;
      && tagName in colors
      && colors[tagName] == match FindExistingTagColor(tagName, existingTags)
        case Some(c) => c
        case None => NewColor(AvailableColors(existingTags), NewCount(tagNames[..j], existingTags))
    decreases |tagNames|
  {
    var init := tagNames[..|tagNames| - 1];
    if j < |tagNames| - 1 {
      assert LastOccurrence(init, j);
      assert init[..j] == tagNames[..j];
      AssignEntry(init, existingTags, j);
    } else {
      AssignKeys(init, existingTags);
      assert init == tagNames[..j];
    }
  }

  /** Every colour handed out is an existing tag's colour or a palette colour. */
  lemma AssignColorsFromPalette(tagNames: seq<string>, existingTags: seq<Tag>)
    ensures forall n :: n in Assign(tagNames, existingTags).colors ==>
      var c := Assign(tagNames, existingTags).colors[n];
      c in TagColors || c in UsedColors(existingTags)
  {
    var colors := Assign(tagNames, existingTags).colors;
    AssignKeys(tagNames, existingTags);
    AvailableColorsMembers(existingTags);
    forall n | n in colors
      ensures colors[n] in TagColors || colors[n] in UsedColors(existingTags)
    {
      var j := LastIndex(tagNames, n);
      AssignEntry(tagNames, existingTags, j);
      var found := FindExistingTagColor(n, existingTags);
      if found.Some? {
        var t :| t in existingTags && SameName(t, n) && t.color == found.value;
      }
    }
  }

  /** The last position of a name that occurs. */
  function LastIndex(tagNames: seq<string>, n: string): (j: int)
    requires n in tagNames
    ensures LastOccurrence(tagNames, j) && tagNames[j] == n
  {
    if tagNames[|tagNames| - 1] == n then |tagNames| - 1
    else LastIndex(tagNames[..|tagNames| - 1], n)
  }

  /** For distinct names, the new names that still find an unused palette
      colour get pairwise different colours, none of them used by an existing
      tag. */
  lemma AssignDistinctNewColors(tagNames: seq<string>, existingTags: seq<Tag>, i: int, j: int)
    requires forall a, b :: 0 <= a < b < |tagNames| ==> tagNames[a] != tagNames[b]
    requires 0 <= i < j < |tagNames|
    requires IsNew(existingTags, tagNames[i]) && IsNew(existingTags, tagNames[j])
    requires NewCount(tagNames[..j], existingTags) < |AvailableColors(existingTags)|
    ensures var colors := Assign(tagNames, existingTags).colors;
      && tagNames[i] in colors && tagNames[j] in colors
      && colors[tagNames[i]] != colors[tagNames[j]]
      && colors[tagNames[i]] !in UsedColors(existingTags)
      && colors[tagNames[j]] !in UsedColors(existingTags)
  {
    var available := AvailableColors(existingTags);
    AssignEntry(tagNames, existingTags, i);
    AssignEntry(tagNames, existingTags, j);
    var before, at := NewCount(tagNames[..i], existingTags), NewCount(tagNames[..j], existingTags);
    NewCountPrefix(tagNames, existingTags, i, j);
    AvailableColorsMembers(existingTags);
    AvailableColorsDistinct(existingTags);
    assert available[before] in available && available[at] in available;
  }

  /** A new name at `i` counts towards the new names before any later `j`. */
  lemma NewCountPrefix(tagNames: seq<string>, existingTags: seq<Tag>, i: int, j: int)
    requires 0 <= i < j <= |tagNames| && IsNew(existingTags, tagNames[i])
    ensures NewCount(tagNames[..i], existingTags) < NewCount(tagNames[..j], existingTags)
  {
    var p := n => IsNew(existingTags, n);
    assert tagNames[..j] == tagNames[..i] + [tagNames[i]] + tagNames[i + 1..j];
    FilterConcat(tagNames[..i] + [tagNames[i]], tagNames[i + 1..j], p);
    FilterConcat(tagNames[..i], [tagNames[i]], p);
  }
}
