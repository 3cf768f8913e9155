/** The metadata block of the recipe format (src/recipe/metadata.rs): one
    `key: value` line per entry, with the keys `Servings` (required), `Link`
    or `Author` (the source) and `Tags`. */
module MetadataBlock {
  import opened Wrappers
  import opened Strings
  import opened Numerals
  import opened Errors

  /** Rust's `usize`, taken to be 64 bits wide. */
  type USize = n: nat | n < USIZE_LIMIT

  datatype Link = Link(name: string, url: string)

  datatype Source = Author(author: string) | LinkTo(link: Link)

  datatype Metadata = Metadata(servings: USize, source: Option<Source>, tags: seq<string>)

  const SERVINGS_KEY: string := "Servings"
  const TAGS_KEY: string := "Tags"
  const AUTHOR_KEY: string := "Author"
  const LINK_KEY: string := "Link"
  const LINK_SEPARATOR: string := " > "
  const MAPPING_SEPARATOR: string := ": "
  const TAG_SEPARATOR: string := ", "

  const MISSING_LINK_SEPARATOR: ParseError := ParseError("missing link separator ' > '")
  const MISSING_MAPPING_SEPARATOR: ParseError := ParseError("missing key-value separator ': ' in metadata")
  const MISSING_SERVINGS: ParseError := ParseError("missing metadata key 'Servings'")
  const SERVINGS_NOT_A_NUMBER: ParseError := ParseError("metadata value for key 'Servings' must be a number")

  function DuplicateKey(key: string): ParseError {
    ParseError("duplicate metadata key '" + key + "'")
  }

  function UnknownKey(key: string): ParseError {
    ParseError("unknown metadata key '" + key + "'")
  }

  /** `write!(f, "{}: {}", key, value)`. */
  function MappingLine(key: string, value: string): string {
    key + MAPPING_SEPARATOR + value
  }

  // ---------------------------------------------------------------------
  // Links and sources

  /** `Display for Link`. */
  function ShowLink(link: Link): string {
    link.name + LINK_SEPARATOR + link.url
  }

  /** `Link::parse_from_str`: the name is the end-trimmed text before the
      first `" > "`, the URL the start-trimmed text after it; neither may be
      empty. */
  function ParseLink(s: string): (r: Result<Link, ParseError>)
    ensures SplitOnce(s, LINK_SEPARATOR).None? <==> r == Err(MISSING_LINK_SEPARATOR)
    ensures r.Ok? ==> r.value.name != [] && !IsWhitespace(r.value.name[|r.value.name| - 1])
    ensures r.Ok? ==> r.value.url != [] && !IsWhitespace(r.value.url[0])
  {
    match SplitOnce(s, LINK_SEPARATOR)
    case None => Err(MISSING_LINK_SEPARATOR)
    case Some((before, after)) =>
      var name := TrimEnd(before);
      var url := TrimStart(after);
      if name == [] then Err(Empty("link name"))
      else if url == [] then Err(Empty("link url"))
      else Ok(Link(name, url))
  }

  /** A link that displays and parses back unchanged. */
  predicate GoodLink(link: Link) {
    && link.name != [] && Trimmed(link.name) && OneLine(link.name) && '>' !in link.name
    && link.url != [] && Trimmed(link.url) && OneLine(link.url)
  }

  /** Whitespace around the separator is dropped: `"name with space  >  url
      with space"` reads as the link `name with space > url with space`. */
  lemma ParseLinkPadded(link: Link, before: string, after: string)
    requires GoodLink(link)
    requires forall i :: 0 <= i < |before| ==> IsWhitespace(before[i])
    requires forall i :: 0 <= i < |after| ==> IsWhitespace(after[i])
    ensures ParseLink(link.name + before + LINK_SEPARATOR + after + link.url) == Ok(link)
  {
    var s := link.name + before + LINK_SEPARATOR + after + link.url;
    assert '>' !in link.name + before by {
      forall i | 0 <= i < |link.name + before|
        ensures (link.name + before)[i] != '>'
      {
        if i >= |link.name| {
          assert (link.name + before)[i] == before[i - |link.name|];
        }
      }
    }
    assert s == (link.name + before) + LINK_SEPARATOR + (after + link.url);
    SplitOnceSecondChar(link.name + before, LINK_SEPARATOR, after + link.url);
    TrimEndPadded(link.name, before);
    TrimStartPadded(after, link.url);
  }

  /** A good link displays as text that parses back to it. */
  lemma ParseShowLink(link: Link)
    requires GoodLink(link)
    ensures ParseLink(ShowLink(link)) == Ok(link)
  {
    ParseLinkPadded(link, [], []);
    assert link.name + [] + LINK_SEPARATOR + [] + link.url == ShowLink(link);
  }

  /** The key and value a source is written under. */
  function SourceEntry(source: Source): (string, string) {
    match source
    case Author(author) => (AUTHOR_KEY, author)
    case LinkTo(link) => (LINK_KEY, ShowLink(link))
  }

  /** `Display for Source`: `Author: <author>` or `Link: <name> > <url>`. */
  function ShowSource(source: Source): string {
    MappingLine(SourceEntry(source).0, SourceEntry(source).1)
  }

  // ---------------------------------------------------------------------
  // Key-value lines

  /** `parse_mapping`: the trimmed line splits at its first `": "` into an
      end-trimmed key and a start-trimmed value, both non-empty. */
  function ParseMapping(line: string): (r: Result<(string, string), ParseError>)
    ensures SplitOnce(Trim(line), MAPPING_SEPARATOR).None? <==> r == Err(MISSING_MAPPING_SEPARATOR)
    ensures r.Ok? ==> r.value.0 != [] && r.value.1 != []
  {
    match SplitOnce(Trim(line), MAPPING_SEPARATOR)
    case None => Err(MISSING_MAPPING_SEPARATOR)
    case Some((before, after)) =>
      var key := TrimEnd(before);
      var value := TrimStart(after);
      if key == [] then Err(Empty("metadata key"))
      else if value == [] then Err(Empty("metadata value"))
      else Ok((key, value))
  }

  /** What a line that parses gives: a trimmed key that starts the trimmed
      line and a trimmed value that ends it. */
  lemma ParseMappingOk(line: string)
    requires ParseMapping(line).Ok?
    ensures var (key, value) := ParseMapping(line).value;
      && Trimmed(key) && Trimmed(value)
      && StartsWith(Trim(line), key)
      && |key| + |value| <= |Trim(line)|
      && Trim(line)[|Trim(line)| - |value|..] == value
  {
    TrimIsTrimmed(line);
    var (before, after) := SplitOnce(Trim(line), MAPPING_SEPARATOR).value;
    TrimmedParts(Trim(line), before, after);
  }

  /** The parts around a separator of a trimmed text, end- and start-trimmed. */
  lemma TrimmedParts(t: string, before: string, after: string)
    requires t == before + MAPPING_SEPARATOR + after && Trimmed(t)
    requires TrimEnd(before) != [] && TrimStart(after) != []
    ensures var (key, value) := (TrimEnd(before), TrimStart(after));
      && Trimmed(key) && Trimmed(value)
      && StartsWith(t, key)
      && |key| + |value| <= |t|
      && t[|t| - |value|..] == value
  {
    var (key, value) := (TrimEnd(before), TrimStart(after));
    TrimEndDropsWhitespace(before);
    TrimStartDropsWhitespace(after);
    assert key[0] == t[0];
    assert value[|value| - 1] == t[|t| - 1];
    assert t[..|key|] == key;
    assert t[|t| - |value|..] == value;
  }

  /** A line `key: value`, with whitespace anywhere around the key, the
      separator and the value, parses to the key and value. */
  lemma ParseMappingPadded(key: string, value: string, pads: seq<string>)
    requires |pads| == 4 && forall k, i :: 0 <= k < 4 && 0 <= i < |pads[k]| ==> IsWhitespace(pads[k][i])
    requires key != [] && Trimmed(key) && ':' !in key
    requires value != [] && Trimmed(value)
    ensures ParseMapping(pads[0] + key + pads[1] + MAPPING_SEPARATOR + pads[2] + value + pads[3]) == Ok((key, value))
  {
    var core := key + pads[1] + MAPPING_SEPARATOR + pads[2] + value;
    assert pads[0] + key + pads[1] + MAPPING_SEPARATOR + pads[2] + value + pads[3] == pads[0] + core + pads[3];
    assert Trimmed(core) by {
      assert core[0] == key[0];
      assert core[|core| - 1] == value[|value| - 1];
    }
    TrimBothPadded(pads[0], core, pads[3]);
    assert ':' !in key + pads[1] by {
      forall i | 0 <= i < |key + pads[1]|
        ensures (key + pads[1])[i] != ':'
      {
        if i >= |key| {
          assert (key + pads[1])[i] == pads[1][i - |key|];
          assert IsWhitespace(pads[1][i - |key|]);
        }
      }
    }
    assert core == (key + pads[1]) + MAPPING_SEPARATOR + (pads[2] + value);
    SplitOnceFirstChar(key + pads[1], MAPPING_SEPARATOR, pads[2] + value);
    TrimEndPadded(key, pads[1]);
    TrimStartPadded(pads[2], value);
  }

  /** A key without `':'` and a value, both non-empty and trimmed, written
      as `key: value` parse back. */
  lemma ParseShowMapping(key: string, value: string)
    requires key != [] && Trimmed(key) && ':' !in key
    requires value != [] && Trimmed(value)
    ensures ParseMapping(MappingLine(key, value)) == Ok((key, value))
  {
    var pads: seq<string> := [[], [], [], []];
    ParseMappingPadded(key, value, pads);
    assert pads[0] + key + pads[1] + MAPPING_SEPARATOR + pads[2] + value + pads[3] == MappingLine(key, value);
  }

  // ---------------------------------------------------------------------
  // From lines to a map (`TryFrom<Vec<String>>`)
  //
  // The insertion loop is stated over any line parser `parse`, and used with
  // `ParseMapping`.

  type Mapping = Result<(string, string), ParseError>

  /** One step of the insertion loop: add the parsed mapping of a line,
      failing on a line that does not parse or a key already present. */
  function AddMapping(r: Result<map<string, string>, ParseError>, mapping: Mapping): Result<map<string, string>, ParseError> {
    var m :- r;
    var (key, value) :- mapping;
    if key in m then Err(DuplicateKey(key)) else Ok(m[key := value])
  }

  /** The map the lines give, read from first to last; the first failing
      line decides the error. */
  function MapFrom(lines: seq<string>, parse: string -> Mapping): Result<map<string, string>, ParseError>
    decreases |lines|
  {
    if lines == [] then Ok(map[]) else AddMapping(MapFrom(lines[..|lines| - 1], parse), parse(lines[|lines| - 1]))
  }

  /** The map a block of metadata lines gives. */
  function MapFromLines(lines: seq<string>): Result<map<string, string>, ParseError> {
    MapFrom(lines, ParseMapping)
  }

  lemma MapFromSnoc(lines: seq<string>, line: string, parse: string -> Mapping)
    ensures MapFrom(lines + [line], parse) == AddMapping(MapFrom(lines, parse), parse(line))
  {
    assert (lines + [line])[..|lines|] == lines;
  }

  lemma MapFromStep(lines: seq<string>, i: nat, parse: string -> Mapping)
    requires i < |lines|
    ensures MapFrom(lines[..i + 1], parse) == AddMapping(MapFrom(lines[..i], parse), parse(lines[i]))
  {
    assert lines[..i + 1] == lines[..i] + [lines[i]];
    MapFromSnoc(lines[..i], lines[i], parse);
  }

  /** Once a prefix of the lines fails, the whole block fails the same way. */
  lemma {:induction false} MapFromPrefixError(lines: seq<string>, n: nat, parse: string -> Mapping)
    requires n <= |lines| && MapFrom(lines[..n], parse).Err?
    decreases |lines|
    ensures MapFrom(lines, parse) == MapFrom(lines[..n], parse)
  {
    if n == |lines| {
      assert lines[..n] == lines;
    } else {
      var init := lines[..|lines| - 1];
      assert init[..n] == lines[..n];
      MapFromPrefixError(init, n, parse);
    }
  }

  /** `mapping` parsed, and `m` holds it. */
  predicate MappingIn(mapping: Mapping, m: map<string, string>) {
    mapping.Ok? && mapping.value.0 in m && m[mapping.value.0] == mapping.value.1
  }

  /** A map the lines give holds the mapping of every line. */
  lemma {:induction false} MapFromHolds(lines: seq<string>, parse: string -> Mapping)
    requires MapFrom(lines, parse).Ok?
    decreases |lines|
    ensures forall i :: 0 <= i < |lines| ==> MappingIn(parse(lines[i]), MapFrom(lines, parse).value)
  {
    if lines != [] {
      var n := |lines| - 1;
      var init := lines[..n];
      MapFromHolds(init, parse);
      var m0 := MapFrom(init, parse).value;
      var m := MapFrom(lines, parse).value;
      var key := parse(lines[n]).value.0;
      assert key !in m0 && m == m0[key := parse(lines[n]).value.1];
      forall i | 0 <= i < |lines|
        ensures MappingIn(parse(lines[i]), m)
      {
        if i < n {
          assert lines[i] == init[i];
          assert MappingIn(parse(init[i]), m0);
        }
      }
    }
  }

  /** A map the lines give has one key per line. */
  lemma {:induction false} MapFromSize(lines: seq<string>, parse: string -> Mapping)
    requires MapFrom(lines, parse).Ok?
    decreases |lines|
    ensures |MapFrom(lines, parse).value| == |lines|
  {
    if lines != [] {
      MapFromSize(lines[..|lines| - 1], parse);
    }
  }

  /** A map the lines give holds nothing but their mappings. */
  lemma {:induction false} MapFromOnly(lines: seq<string>, parse: string -> Mapping)
    requires MapFrom(lines, parse).Ok?
    decreases |lines|
    ensures var m := MapFrom(lines, parse).value;
      forall key :: key in m ==> exists i :: 0 <= i < |lines| && parse(lines[i]) == Ok((key, m[key]))
  {
    if lines != [] {
      var n := |lines| - 1;
      var init := lines[..n];
      MapFromOnly(init, parse);
      var m0 := MapFrom(init, parse).value;
      var m := MapFrom(lines, parse).value;
      var (key, value) := parse(lines[n]).value;
      assert m == m0[key := value];
      forall k | k in m
        ensures exists i :: 0 <= i < |lines| && parse(lines[i]) == Ok((k, m[k]))
      {
        if k == key {
          assert parse(lines[n]) == Ok((k, m[k]));
        } else {
          var i :| 0 <= i < |init| && parse(init[i]) == Ok((k, m0[k]));
          assert lines[i] == init[i];
        }
      }
    }
  }

  /** Two lines with the same key make the block fail (`map.insert`
      reports the earlier value). */
  lemma DuplicateKeyFails(lines: seq<string>, i: nat, j: nat, parse: string -> Mapping)
    requires i < j < |lines|
    requires parse(lines[i]).Ok? && parse(lines[j]).Ok?
    requires parse(lines[i]).value.0 == parse(lines[j]).value.0
    ensures MapFrom(lines, parse).Err?
  {
    assert AddMapping(MapFrom(lines[..j], parse), parse(lines[j])).Err? by {
      assert lines[..j][i] == lines[i];
      DuplicateAfter(lines[..j], i, parse(lines[j]), parse);
    }
    assert MapFrom(lines[..j + 1], parse).Err? by {
      MapFromStep(lines, j, parse);
    }
    MapFromPrefixError(lines, j + 1, parse);
  }

  lemma DuplicateAfter(init: seq<string>, i: nat, mapping: Mapping, parse: string -> Mapping)
    requires i < |init| && parse(init[i]).Ok? && mapping.Ok?
    requires parse(init[i]).value.0 == mapping.value.0
    ensures AddMapping(MapFrom(init, parse), mapping).Err?
  {
    if MapFrom(init, parse).Ok? {
      MapFromHolds(init, parse);
      assert MappingIn(parse(init[i]), MapFrom(init, parse).value);
    }
  }

  /** The insertion loop of `TryFrom<Vec<String>>`, with the line parser
      (`parse_mapping`) as a parameter. */
  method CollectMappings(lines: seq<string>, parse: string -> Mapping) returns (r: Result<map<string, string>, ParseError>)
    ensures r == MapFrom(lines, parse)
  {
    var m: map<string, string> := map[];
    var i := 0;
    var failure: Option<ParseError> := None;
    assert lines[..0] == [];
    while failure.None? && i < |lines|
      invariant 0 <= i <= |lines|
      invariant failure.None? ==> MapFrom(lines[..i], parse) == Ok(m)
      invariant failure.Some? ==> MapFrom(lines, parse) == Err(failure.value)
      decreases |lines| - i, if failure.None? then 1 else 0
    {
      var mapping := parse(lines[i]);
      MapFromStep(lines, i, parse);
      if mapping.Err? || mapping.value.0 in m {
        failure := Some(if mapping.Err? then mapping.error else DuplicateKey(mapping.value.0));
        MapFromPrefixError(lines, i + 1, parse);
      } else {
        m := m[mapping.value.0 := mapping.value.1];
        i := i + 1;
      }
    }
    if failure.Some? {
      r := Err(failure.value);
    } else {
      assert lines[..i] == lines;
      r := Ok(m);
    }
  }

  // ---------------------------------------------------------------------
  // From a map to metadata (`TryFrom<HashMap<String, String>>`)

  /** `value.split(", ")` with every piece trimmed. */
  function SplitTags(value: string): (r: seq<string>)
    ensures |r| > 0
  {
    var pieces := SplitAll(value, TAG_SEPARATOR);
    seq(|pieces|, i requires 0 <= i < |pieces| => Trim(pieces[i]))
  }

  /** The source: a `Link` entry if there is one (parsed), otherwise an
      `Author` entry if there is one. */
  function SourceOf(m: map<string, string>): Result<Option<Source>, ParseError> {
    if LINK_KEY in m then
      var link :- ParseLink(m[LINK_KEY]);
      Ok(Some(LinkTo(link)))
    else if AUTHOR_KEY in m then Ok(Some(Author(m[AUTHOR_KEY])))
    else Ok(None)
  }

  /** The keys the conversion removes from the map: `Author` only when there
      is no `Link`. */
  function KnownKeys(m: map<string, string>): set<string> {
    {SERVINGS_KEY, LINK_KEY, TAGS_KEY} + (if LINK_KEY in m then {} else {AUTHOR_KEY})
  }

  /** The conversion up to the check for leftover keys: the metadata, and
      the keys left in the map, or the first error. */
  function ReadKnownKeys(m: map<string, string>): (r: Result<(Metadata, set<string>), ParseError>)
    ensures r.Ok? ==> r.value.1 <= m.Keys && SERVINGS_KEY !in r.value.1 && TAGS_KEY !in r.value.1 && LINK_KEY !in r.value.1
  {
    if SERVINGS_KEY !in m then Err(MISSING_SERVINGS)
    else
      var servings := ParseUnsigned(m[SERVINGS_KEY], USIZE_LIMIT);
      if !servings.Number? then Err(SERVINGS_NOT_A_NUMBER)
      else
        var source :- SourceOf(m);
        var tags := if TAGS_KEY in m then SplitTags(m[TAGS_KEY]) else [];
        Ok((Metadata(servings.n, source, tags), m.Keys - KnownKeys(m)))
  }

  /** What `TryFrom<HashMap>` may return for `m`: the first error, or the
      metadata when no key is left over, or else an "unknown metadata key"
      error naming one of the leftover keys (which one depends on the hash
      map's iteration order). */
  ghost predicate FromMapResult(m: map<string, string>, r: Result<Metadata, ParseError>) {
    match ReadKnownKeys(m)
    case Err(e) => r == Err(e)
    case Ok((meta, left)) =>
      if left == {} then r == Ok(meta) else exists key :: key in left && r == Err(UnknownKey(key))
  }

  /** `TryFrom<HashMap<String, String>> for Metadata`: removes the known keys
      from a local copy of the map, then fails on any key still present. */
  method FromMap(entries: map<string, string>) returns (r: Result<Metadata, ParseError>)
    ensures FromMapResult(entries, r)
  {
    var m := entries;
    if SERVINGS_KEY !in m {
      return Err(MISSING_SERVINGS);
    }
    var servingsText := m[SERVINGS_KEY];
    m := m - {SERVINGS_KEY};
    var servings := ParseUnsigned(servingsText, USIZE_LIMIT);
    if !servings.Number? {
      return Err(SERVINGS_NOT_A_NUMBER);
    }
    var source: Option<Source> := None;
    if LINK_KEY in m {
      var link := ParseLink(m[LINK_KEY]);
      m := m - {LINK_KEY};
      if link.Err? {
        return Err(link.error);
      }
      source := Some(LinkTo(link.value));
    } else if AUTHOR_KEY in m {
      source := Some(Author(m[AUTHOR_KEY]));
      m := m - {AUTHOR_KEY};
    }
    var tags: seq<string> := [];
    if TAGS_KEY in m {
      tags := SplitTags(m[TAGS_KEY]);
      m := m - {TAGS_KEY};
    }
    assert SourceOf(entries) == Ok(source);
    assert m.Keys == entries.Keys - KnownKeys(entries);
    assert ReadKnownKeys(entries) == Ok((Metadata(servings.n, source, tags), m.Keys));
    if m.Keys != {} {
      var key :| key in m.Keys;
      return Err(UnknownKey(key));
    }
    r := Ok(Metadata(servings.n, source, tags));
  }

  /** What `TryFrom<Vec<String>> for Metadata` may return for the lines. */
  ghost predicate MetadataResult(lines: seq<string>, r: Result<Metadata, ParseError>) {
    match MapFromLines(lines)
    case Err(e) => r == Err(e)
    case Ok(m) => FromMapResult(m, r)
  }

  /** `TryFrom<Vec<String>> for Metadata`. */
  method FromLines(lines: seq<string>) returns (r: Result<Metadata, ParseError>)
    ensures MetadataResult(lines, r)
  {
    var entries := CollectMappings(lines, ParseMapping);
    if entries.Err? {
      return Err(entries.error);
    }
    r := FromMap(entries.value);
  }

  // ---------------------------------------------------------------------
  // Display and the round trip

  /** `Display for Metadata`, one string per line: `Servings`, then the
      source if there is one, then `Tags` if there are any. */
  function ShowMetadata(meta: Metadata): seq<string> {
    HeadLines(meta) + (if meta.tags == [] then [] else [MappingLine(TAGS_KEY, Join(meta.tags, TAG_SEPARATOR))])
  }

  /** The `Servings` line and the source line. */
  function HeadLines(meta: Metadata): seq<string> {
    [MappingLine(SERVINGS_KEY, NatToString(meta.servings))]
    + (if meta.source.Some? then [ShowSource(meta.source.value)] else [])
  }

  predicate GoodTag(tag: string) {
    tag != [] && Trimmed(tag) && OneLine(tag) && ',' !in tag
  }

  predicate GoodSource(source: Source) {
    match source
    case Author(author) => author != [] && Trimmed(author) && OneLine(author)
    case LinkTo(link) => GoodLink(link)
  }

  /** Metadata that displays and parses back unchanged: its text parts are
      non-empty, trimmed and one line each, a link name has no `'>'` and no
      tag a `','`. */
  predicate GoodMetadata(meta: Metadata) {
    && (meta.source.Some? ==> GoodSource(meta.source.value))
    && forall i :: 0 <= i < |meta.tags| ==> GoodTag(meta.tags[i])
  }

  /** The map the displayed lines of `meta` give. */
  function EntriesOf(meta: Metadata): map<string, string> {
    if meta.tags == [] then HeadEntries(meta) else HeadEntries(meta)[TAGS_KEY := Join(meta.tags, TAG_SEPARATOR)]
  }

  function HeadEntries(meta: Metadata): map<string, string> {
    var m := map[SERVINGS_KEY := NatToString(meta.servings)];
    if meta.source.Some? then m[SourceEntry(meta.source.value).0 := SourceEntry(meta.source.value).1] else m
  }

  /** Joining good tags gives a non-empty trimmed text. */
  lemma {:induction false} JoinTagsTrimmed(tags: seq<string>)
    requires |tags| > 0 && forall i :: 0 <= i < |tags| ==> GoodTag(tags[i])
    ensures Join(tags, TAG_SEPARATOR) != [] && Trimmed(Join(tags, TAG_SEPARATOR))
  {
    assert GoodTag(tags[0]);
    if |tags| > 1 {
      JoinTagsTrimmed(tags[1..]);
      var rest := Join(tags[1..], TAG_SEPARATOR);
      var s := tags[0] + TAG_SEPARATOR + rest;
      assert Join(tags, TAG_SEPARATOR) == s;
      assert s[0] == tags[0][0];
      assert s[|s| - 1] == rest[|rest| - 1];
    }
  }

  /** Splitting the joined tags gives them back. */
  lemma SplitJoinedTags(tags: seq<string>)
    requires |tags| > 0 && forall i :: 0 <= i < |tags| ==> GoodTag(tags[i])
    ensures SplitTags(Join(tags, TAG_SEPARATOR)) == tags
  {
    SplitAllJoin(tags, TAG_SEPARATOR);
    forall i | 0 <= i < |tags|
      ensures Trim(tags[i]) == tags[i]
    {
      TrimmedIsFixed(tags[i]);
    }
  }

  /** Adding a displayed `key: value` line with a new key extends the map. */
  lemma AddShownLine(lines: seq<string>, m: map<string, string>, key: string, value: string)
    requires MapFromLines(lines) == Ok(m) && key !in m
    requires GoodKey(key) && GoodValue(value)
    ensures MapFromLines(lines + [MappingLine(key, value)]) == Ok(m[key := value])
  {
    MapFromSnoc(lines, MappingLine(key, value), ParseMapping);
    ParseShowMapping(key, value);
  }

  lemma ServingsValue(n: nat)
    ensures var s := NatToString(n); GoodValue(s) && ParseUnsigned(s, USIZE_LIMIT) == if n < USIZE_LIMIT then Number(n) else Overflow
  {
    var s := NatToString(n);
    assert IsDigit(s[0]) && IsDigit(s[|s| - 1]);
    if n < USIZE_LIMIT {
      ParseNatToString(n, USIZE_LIMIT);
    } else {
      ParseTooLarge(n, USIZE_LIMIT);
    }
  }

  /** A key that displays and parses back unchanged. */
  predicate GoodKey(key: string) {
    key != [] && Trimmed(key) && ':' !in key
  }

  /** A value that displays and parses back unchanged. */
  predicate GoodValue(value: string) {
    value != [] && Trimmed(value)
  }

  lemma KeyConstants()
    ensures GoodKey(SERVINGS_KEY) && GoodKey(AUTHOR_KEY) && GoodKey(LINK_KEY) && GoodKey(TAGS_KEY)
    ensures SERVINGS_KEY != AUTHOR_KEY && SERVINGS_KEY != LINK_KEY && SERVINGS_KEY != TAGS_KEY
    ensures AUTHOR_KEY != LINK_KEY && AUTHOR_KEY != TAGS_KEY && LINK_KEY != TAGS_KEY
  {
  }

  lemma SourceValue(source: Source)
    requires GoodSource(source)
    ensures GoodKey(SourceEntry(source).0) && GoodValue(SourceEntry(source).1)
    ensures SourceEntry(source).0 in {AUTHOR_KEY, LINK_KEY}
  {
    KeyConstants();
    if source.LinkTo? {
      var link := source.link;
      var s := ShowLink(link);
      assert s[0] == link.name[0] && s[|s| - 1] == link.url[|link.url| - 1];
    }
  }

  /** The servings line and the source line read back as their entries. */
  lemma HeadLinesMap(meta: Metadata)
    requires GoodMetadata(meta)
    ensures MapFromLines(HeadLines(meta)) == Ok(HeadEntries(meta))
  {
    var servings := NatToString(meta.servings);
    var l0 := [MappingLine(SERVINGS_KEY, servings)];
    var m0 := map[SERVINGS_KEY := servings];
    KeyConstants();
    assert MapFromLines(l0) == Ok(m0) by {
      ServingsValue(meta.servings);
      AddShownLine([], map[], SERVINGS_KEY, servings);
      assert [] + l0 == l0;
    }
    if meta.source.Some? {
      var (key, value) := SourceEntry(meta.source.value);
      SourceValue(meta.source.value);
      assert key !in m0;
      AddShownLine(l0, m0, key, value);
    }
  }

  /** A `key: value` line of a good key and value has no outer whitespace. */
  lemma MappingLineTrimmed(key: string, value: string)
    requires GoodKey(key) && GoodValue(value)
    ensures GoodValue(MappingLine(key, value))
  {
    var s := MappingLine(key, value);
    assert s[0] == key[0] && s[|s| - 1] == value[|value| - 1];
  }

  /** Every displayed line of good metadata is non-empty and has no outer
      whitespace, so a trimming reader sees it unchanged. */
  lemma ShownLinesTrimmed(meta: Metadata)
    requires GoodMetadata(meta)
    ensures ShowMetadata(meta) != []
    ensures forall i :: 0 <= i < |ShowMetadata(meta)| ==> GoodValue(ShowMetadata(meta)[i])
  {
    KeyConstants();
    ServingsValue(meta.servings);
    MappingLineTrimmed(SERVINGS_KEY, NatToString(meta.servings));
    if meta.source.Some? {
      SourceValue(meta.source.value);
      MappingLineTrimmed(SourceEntry(meta.source.value).0, SourceEntry(meta.source.value).1);
    }
    if meta.tags != [] {
      JoinTagsTrimmed(meta.tags);
      MappingLineTrimmed(TAGS_KEY, Join(meta.tags, TAG_SEPARATOR));
    }
  }

  /** The displayed lines of good metadata read back as `EntriesOf(meta)`. */
  lemma ShownLinesMap(meta: Metadata)
    requires GoodMetadata(meta)
    ensures MapFromLines(ShowMetadata(meta)) == Ok(EntriesOf(meta))
  {
    HeadLinesMap(meta);
    if meta.tags != [] {
      var value := Join(meta.tags, TAG_SEPARATOR);
      assert GoodValue(value) by {
        JoinTagsTrimmed(meta.tags);
      }
      assert TAGS_KEY !in HeadEntries(meta) && GoodKey(TAGS_KEY) by {
        KeyConstants();
        if meta.source.Some? {
          SourceValue(meta.source.value);
        }
      }
      AddShownLine(HeadLines(meta), HeadEntries(meta), TAGS_KEY, value);
    } else {
      assert ShowMetadata(meta) == HeadLines(meta);
    }
  }

  /** The map of good metadata converts back to it, with no key left over. */
  lemma ReadEntries(meta: Metadata)
    requires GoodMetadata(meta)
    ensures ReadKnownKeys(EntriesOf(meta)) == Ok((meta, {}))
  {
    var m := EntriesOf(meta);
    ServingsValue(meta.servings);
    assert m[SERVINGS_KEY] == NatToString(meta.servings);
    match meta.source {
      case None =>
        assert LINK_KEY !in m && AUTHOR_KEY !in m;
      case Some(Author(author)) =>
        assert LINK_KEY !in m && m[AUTHOR_KEY] == author;
      case Some(LinkTo(link)) =>
        assert m[LINK_KEY] == ShowLink(link);
        ParseShowLink(link);
    }
    assert SourceOf(m) == Ok(meta.source);
    if meta.tags != [] {
      assert m[TAGS_KEY] == Join(meta.tags, TAG_SEPARATOR);
      SplitJoinedTags(meta.tags);
    } else {
      assert TAGS_KEY !in m;
    }
    assert m.Keys - KnownKeys(m) == {};
  }

  /** A key-value line of one-line texts with a good value is plain. */
  lemma MappingLinePlain(key: string, value: string)
    requires OneLine(key) && OneLine(value) && GoodValue(value)
    ensures PlainLine(MappingLine(key, value))
  {
    PlainAfter(key + MAPPING_SEPARATOR, value);
  }

  /** Every line good metadata displays as is plain, so the written
      metadata reads back line by line as the lines displayed. */
  lemma ShownMetadataPlain(meta: Metadata)
    requires GoodMetadata(meta)
    ensures AllPlain(ShowMetadata(meta))
  {
    var servings := NatToString(meta.servings);
    ServingsValue(meta.servings);
    assert OneLine(servings) by {
      assert forall i :: 0 <= i < |servings| ==> IsDigit(servings[i]);
    }
    MappingLinePlain(SERVINGS_KEY, servings);
    if meta.source.Some? {
      SourceValue(meta.source.value);
      MappingLinePlain(SourceEntry(meta.source.value).0, SourceEntry(meta.source.value).1);
    }
    if meta.tags != [] {
      JoinTagsTrimmed(meta.tags);
      JoinOneLine(meta.tags, TAG_SEPARATOR);
      MappingLinePlain(TAGS_KEY, Join(meta.tags, TAG_SEPARATOR));
    }
  }

  /** Displaying good metadata and reading the lines back gives the same
      metadata. */
  lemma ParseShowMetadata(meta: Metadata, r: Result<Metadata, ParseError>)
    requires GoodMetadata(meta) && MetadataResult(ShowMetadata(meta), r)
    ensures r == Ok(meta)
  {
    ShownLinesMap(meta);
    ReadEntries(meta);
  }

  // ---------------------------------------------------------------------
  // Error cases

  /** Without `Servings` the conversion fails, an empty map included. */
  lemma MissingServings(m: map<string, string>, r: Result<Metadata, ParseError>)
    requires SERVINGS_KEY !in m && FromMapResult(m, r)
    ensures r == Err(MISSING_SERVINGS)
  {
  }

  /** A key outside the four known ones makes the conversion fail. */
  lemma UnknownKeyFails(m: map<string, string>, key: string, r: Result<Metadata, ParseError>)
    requires key in m && key !in {SERVINGS_KEY, LINK_KEY, AUTHOR_KEY, TAGS_KEY}
    requires FromMapResult(m, r)
    ensures r.Err?
  {
    if ReadKnownKeys(m).Ok? {
      assert key in ReadKnownKeys(m).value.1;
    }
  }

  /** `Link` wins over `Author`: with both present, `Author` stays in the map
      and the conversion fails; when every other key is known and valid the
      error names `Author`. */
  lemma LinkAndAuthor(m: map<string, string>, r: Result<Metadata, ParseError>)
    requires LINK_KEY in m && AUTHOR_KEY in m && FromMapResult(m, r)
    ensures r.Err?
    ensures ReadKnownKeys(m).Ok? && m.Keys <= {SERVINGS_KEY, LINK_KEY, AUTHOR_KEY, TAGS_KEY} ==>
              r == Err(UnknownKey(AUTHOR_KEY))
  {
    if ReadKnownKeys(m).Ok? {
      assert AUTHOR_KEY in ReadKnownKeys(m).value.1;
      if m.Keys <= {SERVINGS_KEY, LINK_KEY, AUTHOR_KEY, TAGS_KEY} {
        assert ReadKnownKeys(m).value.1 == {AUTHOR_KEY};
      }
    }
  }

  /** Without `Tags` the metadata has no tags. */
  lemma MissingTags(m: map<string, string>, r: Result<Metadata, ParseError>)
    requires TAGS_KEY !in m && FromMapResult(m, r) && r.Ok?
    ensures r.value.tags == []
  {
  }
}
