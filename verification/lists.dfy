/** Bullet lists of the recipe format (src/recipe/list.rs): either a flat
    list of `- item` lines, or named sections each followed by its `- item`
    lines. Items are parsed and displayed by functions given as parameters
    (the `ParseFromStr` and `Display` implementations of the item type). */
module Lists {
  import opened Wrappers
  import opened Strings
  import opened Errors

  datatype Section<T> = Section(name: string, items: seq<T>)

  datatype List<T> = Basic(items: seq<T>) | Sectioned(sections: seq<Section<T>>)

  const ITEM_PREFIX: string := "- "

  const NOT_AN_ITEM: ParseError := ParseError("list item must start with '- '")

  /** `strip_prefix`: the text of an item line after `"- "` and any further
      leading whitespace. */
  function StripPrefix(line: string): (r: Result<string, ParseError>)
    ensures r.Ok? <==> StartsWith(line, ITEM_PREFIX)
    ensures r.Err? ==> r.error == NOT_AN_ITEM
  {
    if StartsWith(line, ITEM_PREFIX) then Ok(TrimStart(line[|ITEM_PREFIX|..])) else Err(NOT_AN_ITEM)
  }

  /** An item line: prefix stripped, then the item parser. */
  function ParseItem<T>(line: string, parse: string -> Result<T, ParseError>): Result<T, ParseError> {
    var text :- StripPrefix(line);
    parse(text)
  }

  /** `List::parse_basic`: every line is an item line, and the first line that
      is not (or whose item does not parse) fails the whole list. */
  function ParseBasic<T>(lines: seq<string>, parse: string -> Result<T, ParseError>): Result<seq<T>, ParseError> {
    if lines == [] then Ok([])
    else
      var item :- ParseItem(lines[0], parse);
      var items :- ParseBasic(lines[1..], parse);
      Ok([item] + items)
  }

  /** A flat list that parses holds one item per line, each the parsed line
      at the same position. */
  lemma {:induction false} ParseBasicItems<T>(lines: seq<string>, parse: string -> Result<T, ParseError>)
    requires ParseBasic(lines, parse).Ok?
    ensures |ParseBasic(lines, parse).value| == |lines|
    ensures forall i :: 0 <= i < |lines| ==> ParseItem(lines[i], parse) == Ok(ParseBasic(lines, parse).value[i])
  {
    if lines != [] {
      var item := ParseItem(lines[0], parse).value;
      var items := ParseBasic(lines[1..], parse).value;
      ParseBasicItems(lines[1..], parse);
      assert ParseBasic(lines, parse).value == [item] + items;
      forall i | 0 <= i < |lines|
        ensures ParseItem(lines[i], parse) == Ok(([item] + items)[i])
      {
        if i > 0 {
          assert lines[i] == lines[1..][i - 1];
          assert ([item] + items)[i] == items[i - 1];
        }
      }
    }
  }

  /** A flat list fails with the error of its first line that does not
      parse. */
  lemma {:induction false} ParseBasicFirstError<T>(lines: seq<string>, k: nat, parse: string -> Result<T, ParseError>)
    requires k < |lines| && ParseItem(lines[k], parse).Err?
    requires forall j :: 0 <= j < k ==> ParseItem(lines[j], parse).Ok?
    ensures ParseBasic(lines, parse) == Err(ParseItem(lines[k], parse).error)
  {
    if k > 0 {
      assert ParseItem(lines[0], parse).Ok?;
      assert ParseItem(lines[1..][k - 1], parse).Err? by {
        assert lines[1..][k - 1] == lines[k];
      }
      assert forall j :: 0 <= j < k - 1 ==> ParseItem(lines[1..][j], parse).Ok? by {
        forall j | 0 <= j < k - 1
          ensures ParseItem(lines[1..][j], parse).Ok?
        {
          assert lines[1..][j] == lines[j + 1];
        }
      }
      ParseBasicFirstError(lines[1..], k - 1, parse);
      assert lines[1..][k - 1] == lines[k];
    }
  }

  /** A flat list whose every line parses, parses. */
  lemma {:induction false} ParseBasicAllItems<T>(lines: seq<string>, parse: string -> Result<T, ParseError>)
    requires forall j :: 0 <= j < |lines| ==> ParseItem(lines[j], parse).Ok?
    ensures ParseBasic(lines, parse).Ok?
  {
    if lines != [] {
      assert ParseItem(lines[0], parse).Ok?;
      assert forall j :: 0 <= j < |lines| - 1 ==> ParseItem(lines[1..][j], parse).Ok? by {
        forall j | 0 <= j < |lines| - 1
          ensures ParseItem(lines[1..][j], parse).Ok?
        {
          assert lines[1..][j] == lines[j + 1];
        }
      }
      ParseBasicAllItems(lines[1..], parse);
    }
  }

  /** The result of `Section::parse_items` on the lines not yet read: the
      items at the front, and the lines from the first non-item line on (the
      name of the next section, if any). */
  function ItemRun<T>(lines: seq<string>, parse: string -> Result<T, ParseError>)
    : (r: Result<(seq<T>, seq<string>), ParseError>)
    ensures r.Ok? ==> |r.value.0| <= |lines| && r.value.1 == lines[|r.value.0|..]
  {
    if lines == [] || !StartsWith(lines[0], ITEM_PREFIX) then Ok(([], lines))
    else
      var item :- parse(TrimStart(lines[0][|ITEM_PREFIX|..]));
      var run :- ItemRun(lines[1..], parse);
      Ok(([item] + run.0, run.1))
  }

  /** The items of a run are the parsed item lines at the front, and the rest
      starts with a line that is not an item line. */
  lemma {:induction false} ItemRunItems<T>(lines: seq<string>, parse: string -> Result<T, ParseError>)
    ensures var r := ItemRun(lines, parse);
      && (r.Ok? ==> forall i :: 0 <= i < |r.value.0| ==> ParseItem(lines[i], parse) == Ok(r.value.0[i]))
      && (r.Ok? ==> r.value.1 == [] || !StartsWith(r.value.1[0], ITEM_PREFIX))
  {
    if lines != [] && StartsWith(lines[0], ITEM_PREFIX) && parse(TrimStart(lines[0][|ITEM_PREFIX|..])).Ok? {
      ItemRunItems(lines[1..], parse);
      var r := ItemRun(lines, parse);
      if r.Ok? {
        forall i | 0 <= i < |r.value.0|
          ensures ParseItem(lines[i], parse) == Ok(r.value.0[i])
        {
          if i > 0 {
            assert lines[i] == lines[1..][i - 1];
          }
        }
      }
    }
  }

  const EMPTY_SECTION_NAME: ParseError := Empty("list section name")

  /** The lines that are not item lines. */
  function CountHeadings(lines: seq<string>): (n: nat)
    ensures n <= |lines|
  {
    if lines == [] then 0
    else (if StartsWith(lines[0], ITEM_PREFIX) then 0 else 1) + CountHeadings(lines[1..])
  }

  function CountItems<T>(sections: seq<Section<T>>): nat {
    if sections == [] then 0 else |sections[0].items| + CountItems(sections[1..])
  }

  /** The loop of `List::parse_sectioned` from a section named `name` whose
      lines follow: every non-item line opens a new section, and the items
      after it belong to it. */
  function SectionsFrom<T>(name: string, lines: seq<string>, parse: string -> Result<T, ParseError>)
    : (r: Result<seq<Section<T>>, ParseError>)
    decreases |lines|
  {
    if name == [] then Err(EMPTY_SECTION_NAME)
    else
      var run :- ItemRun(lines, parse);
      if run.1 == [] then Ok([Section(name, run.0)])
      else
        var more :- SectionsFrom(run.1[0], run.1[1..], parse);
        Ok([Section(name, run.0)] + more)
  }

  /** One section per heading, the first named `name`, every name non-empty,
      and every other line an item of some section. */
  lemma {:induction false} SectionsFromShape<T>(name: string, lines: seq<string>, parse: string -> Result<T, ParseError>)
    decreases |lines|
    ensures var r := SectionsFrom(name, lines, parse);
      && (name == [] ==> r == Err(EMPTY_SECTION_NAME))
      && (r.Ok? ==> |r.value| == 1 + CountHeadings(lines) && r.value[0].name == name)
      && (r.Ok? ==> CountItems(r.value) + CountHeadings(lines) == |lines|)
      && (r.Ok? ==> forall i :: 0 <= i < |r.value| ==> r.value[i].name != [])
  {
    var r := SectionsFrom(name, lines, parse);
    if name != [] && ItemRun(lines, parse).Ok? {
      var run := ItemRun(lines, parse).value;
      ItemRunItems(lines, parse);
      HeadingsOfItems(lines, |run.0|, parse);
      if run.1 != [] {
        SectionsFromShape(run.1[0], run.1[1..], parse);
        var more := SectionsFrom(run.1[0], run.1[1..], parse);
        if more.Ok? {
          assert r.value == [Section(name, run.0)] + more.value;
          assert r.value[1..] == more.value;
          assert run.1 == [run.1[0]] + run.1[1..];
          forall i | 0 <= i < |r.value|
            ensures r.value[i].name != []
          {
            if i > 0 {
              assert r.value[i] == more.value[i - 1];
            }
          }
        }
      }
    }
  }

  /** The lines of an item run hold no heading, and a heading starts the rest. */
  lemma HeadingsOfItems<T>(lines: seq<string>, n: nat, parse: string -> Result<T, ParseError>)
    requires ItemRun(lines, parse).Ok? && n == |ItemRun(lines, parse).value.0|
    ensures CountHeadings(lines) == CountHeadings(lines[n..])
    ensures n < |lines| ==> CountHeadings(lines[n..]) == 1 + CountHeadings(lines[n + 1..])
  {
    ItemRunItems(lines, parse);
    forall i | 0 <= i < n
      ensures StartsWith(lines[i], ITEM_PREFIX)
    {
      assert ParseItem(lines[i], parse).Ok?;
    }
    HeadingsOfItemLines(lines, n);
    if n < |lines| {
      assert lines[n..][1..] == lines[n + 1..];
    }
  }

  lemma {:induction false} HeadingsOfItemLines(lines: seq<string>, n: nat)
    requires n <= |lines| && forall i :: 0 <= i < n ==> StartsWith(lines[i], ITEM_PREFIX)
    ensures CountHeadings(lines) == CountHeadings(lines[n..])
  {
    if n > 0 {
      assert lines[1..][n - 1..] == lines[n..];
      HeadingsOfItemLines(lines[1..], n - 1);
    }
  }

  /** `List::parse_sectioned`: no lines make no sections; otherwise the first
      line names the first section. */
  function ParseSectionedLines<T>(lines: seq<string>, parse: string -> Result<T, ParseError>)
    : Result<seq<Section<T>>, ParseError>
  {
    if lines == [] then Ok([]) else SectionsFrom(lines[0], lines[1..], parse)
  }

  /** `TryFrom<Vec<String>> for List`: the shape is chosen by the first line. */
  function ParseList<T>(lines: seq<string>, parse: string -> Result<T, ParseError>)
    : (r: Result<List<T>, ParseError>)
    ensures r.Ok? && (lines == [] || StartsWith(lines[0], ITEM_PREFIX)) ==> r.value.Basic?
    ensures r.Ok? && lines != [] && !StartsWith(lines[0], ITEM_PREFIX) ==> r.value.Sectioned?
  {
    if lines == [] || StartsWith(lines[0], ITEM_PREFIX) then
      var items :- ParseBasic(lines, parse);
      Ok(Basic(items))
    else
      var sections :- ParseSectionedLines(lines, parse);
      Ok(Sectioned(sections))
  }

  /** `Section::parse_items` over the shared line iterator, which stands at
      index `from`: the items read and the index of the line that stopped
      them. */
  method ParseItems<T>(lines: seq<string>, from: nat, parse: string -> Result<T, ParseError>)
    returns (r: Result<(seq<T>, nat), ParseError>)
    requires from <= |lines|
    ensures r.Ok? ==> from <= r.value.1 <= |lines|
                      && ItemRun(lines[from..], parse) == Ok((r.value.0, lines[r.value.1..]))
    ensures r.Err? ==> ItemRun(lines[from..], parse) == Err(r.error)
  {
    ghost var whole := ItemRun(lines[from..], parse);
    var items: seq<T> := [];
    var i := from;
    PrependEmpty(whole);
    var failure: Option<ParseError> := None;
    while failure.None? && i < |lines| && StartsWith(lines[i], ITEM_PREFIX)
      invariant from <= i <= |lines|
      invariant failure.None? ==> whole == Prepend(items, ItemRun(lines[i..], parse))
      invariant failure.Some? ==> whole == Err(failure.value)
    {
      var item := parse(TrimStart(lines[i][|ITEM_PREFIX|..]));
      if item.Err? {
        assert whole == Err(item.error) by {
          ItemRunError(lines, i, parse);
        }
        failure := Some(item.error);
      } else {
        assert whole == Prepend(items + [item.value], ItemRun(lines[i + 1..], parse)) by {
          ItemRunItem(lines, i, parse);
          PrependAssoc(items, item.value, ItemRun(lines[i + 1..], parse));
        }
        items := items + [item.value];
        i := i + 1;
      }
    }
    if failure.Some? {
      r := Err(failure.value);
    } else {
      ItemRunStop(lines, i, parse);
      assert items + [] == items;
      r := Ok((items, i));
    }
  }

  /** The items already read in front of the result of reading on. */
  function Prepend<T>(items: seq<T>, r: Result<(seq<T>, seq<string>), ParseError>)
    : Result<(seq<T>, seq<string>), ParseError>
  {
    match r
    case Err(e) => Err(e)
    case Ok(run) => Ok((items + run.0, run.1))
  }

  lemma PrependAssoc<T>(items: seq<T>, item: T, r: Result<(seq<T>, seq<string>), ParseError>)
    ensures Prepend(items, Prepend([item], r)) == Prepend(items + [item], r)
  {
    if r.Ok? {
      assert items + ([item] + r.value.0) == (items + [item]) + r.value.0;
    }
  }

  lemma PrependEmpty<T>(r: Result<(seq<T>, seq<string>), ParseError>)
    ensures Prepend([], r) == r
  {
    if r.Ok? {
      assert [] + r.value.0 == r.value.0;
    }
  }

  /** `ItemRun` at index `i` stops at the end or at a line that is not an item. */
  lemma ItemRunStop<T>(lines: seq<string>, i: nat, parse: string -> Result<T, ParseError>)
    requires i <= |lines| && (i == |lines| || !StartsWith(lines[i], ITEM_PREFIX))
    ensures ItemRun(lines[i..], parse) == Ok(([], lines[i..]))
  {
  }

  /** `ItemRun` at index `i` fails with the item that does not parse. */
  lemma ItemRunError<T>(lines: seq<string>, i: nat, parse: string -> Result<T, ParseError>)
    requires i < |lines| && StartsWith(lines[i], ITEM_PREFIX)
    requires parse(TrimStart(lines[i][|ITEM_PREFIX|..])).Err?
    ensures ItemRun(lines[i..], parse) == Err(parse(TrimStart(lines[i][|ITEM_PREFIX|..])).error)
  {
    assert lines[i..][0] == lines[i];
  }

  /** `ItemRun` at index `i` takes the item and goes on. */
  lemma ItemRunItem<T>(lines: seq<string>, i: nat, parse: string -> Result<T, ParseError>)
    requires i < |lines| && StartsWith(lines[i], ITEM_PREFIX)
    requires parse(TrimStart(lines[i][|ITEM_PREFIX|..])).Ok?
    ensures ItemRun(lines[i..], parse)
            == Prepend([parse(TrimStart(lines[i][|ITEM_PREFIX|..])).value], ItemRun(lines[i + 1..], parse))
  {
    assert lines[i..][0] == lines[i];
    assert lines[i..][1..] == lines[i + 1..];
  }

  /** The sections already read in front of the result of reading on. */
  function PrependSections<T>(sections: seq<Section<T>>, r: Result<seq<Section<T>>, ParseError>)
    : Result<seq<Section<T>>, ParseError>
  {
    match r
    case Err(e) => Err(e)
    case Ok(more) => Ok(sections + more)
  }

  /** `List::parse_sectioned`: the section-name loop over the shared line
      iterator. */
  method ParseSectioned<T>(lines: seq<string>, parse: string -> Result<T, ParseError>)
    returns (r: Result<seq<Section<T>>, ParseError>)
    ensures r == ParseSectionedLines(lines, parse)
  {
    var sections: seq<Section<T>> := [];
    if |lines| == 0 {
      return Ok(sections);
    }
    ghost var whole := ParseSectionedLines(lines, parse);
    var name := lines[0];
    var i := 1;
    PrependSectionsEmpty(SectionsFrom(name, lines[i..], parse));
    var outcome: Option<Result<seq<Section<T>>, ParseError>> := None;
    while outcome.None?
      invariant 1 <= i <= |lines|
      invariant outcome.None? ==> whole == PrependSections(sections, SectionsFrom(name, lines[i..], parse))
      invariant outcome.Some? ==> whole == outcome.value
      decreases |lines| - i, if outcome.None? then 1 else 0
    {
      if name == [] {
        outcome := Some(Err(EMPTY_SECTION_NAME));
      } else {
        var run := ParseItems(lines, i, parse);
        if run.Err? {
          outcome := Some(Err(run.error));
        } else {
          var items := run.value.0;
          var next := run.value.1;
          var section := Section(name, items);
          SectionsFromStep(name, lines, i, items, next, parse);
          if next == |lines| {
            outcome := Some(Ok(sections + [section]));
          } else {
            PrependSectionsAssoc(sections, section, SectionsFrom(lines[next], lines[next + 1..], parse));
            sections := sections + [section];
            name := lines[next];
            i := next + 1;
          }
        }
      }
    }
    r := outcome.value;
  }

  lemma PrependSectionsEmpty<T>(r: Result<seq<Section<T>>, ParseError>)
    ensures PrependSections([], r) == r
  {
    if r.Ok? {
      assert [] + r.value == r.value;
    }
  }

  lemma PrependSectionsAssoc<T>(sections: seq<Section<T>>, section: Section<T>, r: Result<seq<Section<T>>, ParseError>)
    ensures PrependSections(sections, PrependSections([section], r)) == PrependSections(sections + [section], r)
  {
    if r.Ok? {
      assert sections + ([section] + r.value) == (sections + [section]) + r.value;
    }
  }

  /** One section of `SectionsFrom`, once its items have been read. */
  lemma SectionsFromStep<T>(name: string, lines: seq<string>, i: nat, items: seq<T>, next: nat,
                            parse: string -> Result<T, ParseError>)
    requires name != [] && i <= next <= |lines|
    requires ItemRun(lines[i..], parse) == Ok((items, lines[next..]))
    ensures next == |lines| ==> SectionsFrom(name, lines[i..], parse) == Ok([Section(name, items)])
    ensures next < |lines| ==>
              SectionsFrom(name, lines[i..], parse)
              == PrependSections([Section(name, items)], SectionsFrom(lines[next], lines[next + 1..], parse))
  {
    if next < |lines| {
      assert lines[next..][0] == lines[next];
      assert lines[next..][1..] == lines[next + 1..];
    }
  }

  /** `TryFrom<Vec<String>> for List`. */
  method ListFromLines<T>(lines: seq<string>, parse: string -> Result<T, ParseError>)
    returns (r: Result<List<T>, ParseError>)
    ensures r == ParseList(lines, parse)
  {
    if |lines| == 0 || StartsWith(lines[0], ITEM_PREFIX) {
      var items :- ParseBasic(lines, parse);
      return Ok(Basic(items));
    }
    var sections :- ParseSectioned(lines, parse);
    return Ok(Sectioned(sections));
  }

  /** `format_items`: one `"<indentation>- <item>"` line per item. */
  function FormatItems<T>(items: seq<T>, show: T -> string, indentation: string): seq<string> {
    if items == [] then [] else [indentation + ITEM_PREFIX + show(items[0])] + FormatItems(items[1..], show, indentation)
  }

  /** `Section::format`: the name, then the items at doubled indentation. */
  function FormatSection<T>(section: Section<T>, show: T -> string, indentation: string): seq<string> {
    [indentation + section.name] + FormatItems(section.items, show, indentation + indentation)
  }

  function FormatSections<T>(sections: seq<Section<T>>, show: T -> string, indentation: string): seq<string> {
    if sections == [] then []
    else FormatSection(sections[0], show, indentation) + FormatSections(sections[1..], show, indentation)
  }

  /** `List::format` with an indentation of `width` spaces. */
  function FormatList<T>(list: List<T>, show: T -> string, width: nat): seq<string> {
    match list
    case Basic(items) => FormatItems(items, show, Spaces(width))
    case Sectioned(sections) => FormatSections(sections, show, Spaces(width))
  }

  /** An item whose display is non-empty, one line without outer
      whitespace, and parses back to the item. */
  ghost predicate GoodItem<T>(x: T, show: T -> string, parse: string -> Result<T, ParseError>) {
    show(x) != [] && Trimmed(show(x)) && OneLine(show(x)) && parse(show(x)) == Ok(x)
  }

  /** A section name that reads back as a heading. */
  predicate GoodName(name: string) {
    name != [] && Trimmed(name) && OneLine(name) && !StartsWith(name, ITEM_PREFIX)
  }

  /** A list that survives being displayed and read back. */
  ghost predicate GoodList<T>(list: List<T>, show: T -> string, parse: string -> Result<T, ParseError>) {
    match list
    case Basic(items) => forall i :: 0 <= i < |items| ==> GoodItem(items[i], show, parse)
    case Sectioned(sections) =>
      && sections != []
      && forall i :: 0 <= i < |sections| ==>
           && GoodName(sections[i].name)
           && forall j :: 0 <= j < |sections[i].items| ==> GoodItem(sections[i].items[j], show, parse)
  }

  lemma ParseItemLine<T>(x: T, show: T -> string, parse: string -> Result<T, ParseError>)
    requires GoodItem(x, show, parse)
    ensures ParseItem(ITEM_PREFIX + show(x), parse) == Ok(x)
  {
    var line := ITEM_PREFIX + show(x);
    assert line[|ITEM_PREFIX|..] == show(x);
    TrimmedIsFixed(show(x));
  }

  /** An item line in front of more lines. */
  lemma ItemRunCons<T>(x: T, rest: seq<string>, show: T -> string, parse: string -> Result<T, ParseError>)
    requires GoodItem(x, show, parse)
    ensures ItemRun([ITEM_PREFIX + show(x)] + rest, parse) == Prepend([x], ItemRun(rest, parse))
    ensures ParseBasic([ITEM_PREFIX + show(x)] + rest, parse)
            == (var items :- ParseBasic(rest, parse); Ok([x] + items))
  {
    var lines := [ITEM_PREFIX + show(x)] + rest;
    assert lines[0][|ITEM_PREFIX|..] == show(x);
    assert lines[1..] == rest;
    ParseItemLine(x, show, parse);
    TrimmedIsFixed(show(x));
  }

  /** The first line of unindented items. */
  lemma FormatItemsCons<T>(items: seq<T>, show: T -> string)
    requires items != []
    ensures FormatItems(items, show, []) == [ITEM_PREFIX + show(items[0])] + FormatItems(items[1..], show, [])
  {
    assert [] + ITEM_PREFIX + show(items[0]) == ITEM_PREFIX + show(items[0]);
  }

  lemma {:induction false} ParseBasicFormat<T>(items: seq<T>, show: T -> string, parse: string -> Result<T, ParseError>)
    requires forall i :: 0 <= i < |items| ==> GoodItem(items[i], show, parse)
    ensures ParseBasic(FormatItems(items, show, []), parse) == Ok(items)
  {
    if items != [] {
      var rest := FormatItems(items[1..], show, []);
      FormatItemsCons(items, show);
      assert GoodItem(items[0], show, parse);
      assert ParseBasic(rest, parse) == Ok(items[1..]) by {
        ParseBasicFormat(items[1..], show, parse);
      }
      ItemRunCons(items[0], rest, show, parse);
      assert [items[0]] + items[1..] == items;
    }
  }

  lemma {:induction false} ItemRunFormat<T>(items: seq<T>, tail: seq<string>, show: T -> string,
                                            parse: string -> Result<T, ParseError>)
    requires forall i :: 0 <= i < |items| ==> GoodItem(items[i], show, parse)
    requires tail == [] || !StartsWith(tail[0], ITEM_PREFIX)
    ensures ItemRun(FormatItems(items, show, []) + tail, parse) == Ok((items, tail))
  {
    if items == [] {
      assert FormatItems(items, show, []) + tail == tail;
    } else {
      var rest := FormatItems(items[1..], show, []) + tail;
      assert FormatItems(items, show, []) + tail == [ITEM_PREFIX + show(items[0])] + rest by {
        FormatItemsCons(items, show);
      }
      assert GoodItem(items[0], show, parse);
      assert ItemRun(rest, parse) == Ok((items[1..], tail)) by {
        ItemRunFormat(items[1..], tail, show, parse);
      }
      ItemRunCons(items[0], rest, show, parse);
      assert [items[0]] + items[1..] == items;
    }
  }

  /** `SectionsFrom` once the items under a heading are known. */
  lemma SectionsFromRun<T>(name: string, body: seq<string>, items: seq<T>, tail: seq<string>,
                           parse: string -> Result<T, ParseError>)
    requires name != [] && ItemRun(body, parse) == Ok((items, tail))
    ensures tail == [] ==> SectionsFrom(name, body, parse) == Ok([Section(name, items)])
    ensures tail != [] ==>
              SectionsFrom(name, body, parse)
              == PrependSections([Section(name, items)], SectionsFrom(tail[0], tail[1..], parse))
  {
  }

  /** The display of sections without indentation: the first name, then its
      items, then the other sections. */
  lemma FormatSectionsCons<T>(sections: seq<Section<T>>, show: T -> string)
    requires sections != []
    ensures var lines := FormatSections(sections, show, []);
      && lines != []
      && lines[0] == sections[0].name
      && lines[1..] == FormatItems(sections[0].items, show, []) + FormatSections(sections[1..], show, [])
  {
    var a := FormatItems(sections[0].items, show, []);
    var b := FormatSections(sections[1..], show, []);
    assert [] + sections[0].name == sections[0].name;
    assert Spaces(0) + Spaces(0) == Spaces(0);
    assert FormatSections(sections, show, []) == [sections[0].name] + a + b;
    HeadTail(sections[0].name, a, b);
  }

  lemma HeadTail<X>(x: X, a: seq<X>, b: seq<X>)
    ensures ([x] + a + b)[0] == x && ([x] + a + b)[1..] == a + b
  {
  }

  lemma GoodListTail<T>(sections: seq<Section<T>>, show: T -> string, parse: string -> Result<T, ParseError>)
    requires GoodList(Sectioned(sections), show, parse) && |sections| > 1
    ensures GoodList(Sectioned(sections[1..]), show, parse)
  {
    forall i | 0 <= i < |sections[1..]|
      ensures GoodName(sections[1..][i].name)
    {
      assert sections[1..][i] == sections[i + 1];
    }
  }

  /** A well-formed section in front of sections that read back. */
  lemma SectionsFromFormatCons<T>(s: Section<T>, rest: seq<Section<T>>, show: T -> string,
                                  parse: string -> Result<T, ParseError>)
    requires GoodName(s.name) && forall j :: 0 <= j < |s.items| ==> GoodItem(s.items[j], show, parse)
    requires rest != [] && GoodName(rest[0].name)
    requires var restLines := FormatSections(rest, show, []);
      restLines != [] && SectionsFrom(restLines[0], restLines[1..], parse) == Ok(rest)
    ensures var lines := FormatSections([s] + rest, show, []);
      lines != [] && SectionsFrom(lines[0], lines[1..], parse) == Ok([s] + rest)
  {
    var itemLines := FormatItems(s.items, show, []);
    var restLines := FormatSections(rest, show, []);
    var lines := FormatSections([s] + rest, show, []);
    assert ([s] + rest)[0] == s && ([s] + rest)[1..] == rest;
    FormatSectionsCons([s] + rest, show);
    FormatSectionsCons(rest, show);
    ItemRunFormat(s.items, restLines, show, parse);
    SectionsFromCons(s.name, itemLines + restLines, s.items, restLines, rest, parse);
  }

  lemma SectionsFromCons<T>(name: string, body: seq<string>, items: seq<T>, restLines: seq<string>,
                            rest: seq<Section<T>>, parse: string -> Result<T, ParseError>)
    requires name != [] && ItemRun(body, parse) == Ok((items, restLines))
    requires restLines != [] && SectionsFrom(restLines[0], restLines[1..], parse) == Ok(rest)
    ensures SectionsFrom(name, body, parse) == Ok([Section(name, items)] + rest)
  {
    SectionsFromRun(name, body, items, restLines, parse);
  }

  /** A single well-formed section reads back. */
  lemma SectionsFromFormatLast<T>(s: Section<T>, show: T -> string, parse: string -> Result<T, ParseError>)
    requires GoodName(s.name) && forall j :: 0 <= j < |s.items| ==> GoodItem(s.items[j], show, parse)
    ensures var lines := FormatSections([s], show, []);
      lines != [] && SectionsFrom(lines[0], lines[1..], parse) == Ok([s])
  {
    var itemLines := FormatItems(s.items, show, []);
    FormatSectionsCons([s], show);
    assert [s][1..] == [];
    ItemRunFormat(s.items, [], show, parse);
    assert itemLines + [] == itemLines;
    SectionsFromRun(s.name, itemLines, s.items, [], parse);
  }

  lemma {:induction false} SectionsFromFormat<T>(sections: seq<Section<T>>, show: T -> string,
                                                 parse: string -> Result<T, ParseError>)
    requires GoodList(Sectioned(sections), show, parse)
    ensures var lines := FormatSections(sections, show, []);
      lines != [] && SectionsFrom(lines[0], lines[1..], parse) == Ok(sections)
  {
    var s := sections[0];
    if |sections| == 1 {
      SectionsFromFormatLast(s, show, parse);
      assert sections == [s];
    } else {
      GoodListTail(sections, show, parse);
      SectionsFromFormat(sections[1..], show, parse);
      SectionsFromFormatCons(s, sections[1..], show, parse);
      assert [s] + sections[1..] == sections;
    }
  }

  /** Displaying a well-formed list without indentation and parsing the lines
      back gives the same list. */
  lemma ParseFormatList<T>(list: List<T>, show: T -> string, parse: string -> Result<T, ParseError>)
    requires GoodList(list, show, parse)
    ensures ParseList(FormatList(list, show, 0), parse) == Ok(list)
  {
    assert Spaces(0) == [];
    match list
    case Basic(items) =>
      ParseBasicFormat(items, show, parse);
      var lines := FormatItems(items, show, []);
      if lines != [] {
        assert StartsWith(lines[0], ITEM_PREFIX) by {
          assert lines[0] == [] + ITEM_PREFIX + show(items[0]);
        }
      }
    case Sectioned(sections) =>
      SectionsFromFormat(sections, show, parse);
      var lines := FormatSections(sections, show, []);
      assert lines[0] == [] + sections[0].name;
  }

  /** An empty sectioned list displays as nothing and so reads back as an
      empty flat list. */
  lemma EmptySectionedReadsAsBasic<T>(show: T -> string, parse: string -> Result<T, ParseError>)
    ensures ParseList(FormatList(Sectioned([]), show, 0), parse) == Ok(Basic([]))
  {
  }

  /** An empty first line is an empty section name, so `[""]` does not parse. */
  lemma EmptyLineFails<T>(parse: string -> Result<T, ParseError>)
    ensures ParseList([""], parse) == Err(EMPTY_SECTION_NAME)
  {
    assert !StartsWith("", ITEM_PREFIX);
  }

  // ---------------------------------------------------------------------
  // Indented display read back with trimming

  /** Each of `lines` trims to the matching line of `flat`, which is not
      empty: what a trimming reader sees of indented list lines. */
  predicate TrimsTo(lines: seq<string>, flat: seq<string>) {
    && |lines| == |flat|
    && forall i :: 0 <= i < |lines| ==> Trim(lines[i]) == flat[i] && flat[i] != []
  }

  lemma TrimsToConcat(a: seq<string>, fa: seq<string>, b: seq<string>, fb: seq<string>)
    requires TrimsTo(a, fa) && TrimsTo(b, fb)
    ensures TrimsTo(a + b, fa + fb)
  {
    forall i | 0 <= i < |a + b|
      ensures Trim((a + b)[i]) == (fa + fb)[i] && (fa + fb)[i] != []
    {
      if i >= |a| {
        assert (a + b)[i] == b[i - |a|] && (fa + fb)[i] == fb[i - |a|];
      }
    }
  }

  /** Every item displays as non-empty trimmed text. */
  predicate ShownTrimmed<T>(items: seq<T>, show: T -> string) {
    forall i :: 0 <= i < |items| ==> show(items[i]) != [] && Trimmed(show(items[i]))
  }

  /** Indented item lines trim to the unindented ones. */
  lemma {:induction false} FormatItemsTrims<T>(items: seq<T>, show: T -> string, indentation: string)
    requires forall i :: 0 <= i < |indentation| ==> IsWhitespace(indentation[i])
    requires ShownTrimmed(items, show)
    ensures TrimsTo(FormatItems(items, show, indentation), FormatItems(items, show, []))
  {
    if items != [] {
      var text := ITEM_PREFIX + show(items[0]);
      assert Trim(indentation + ITEM_PREFIX + show(items[0])) == text by {
        assert Trimmed(text) by {
          assert text[|text| - 1] == show(items[0])[|show(items[0])| - 1];
        }
        assert indentation + ITEM_PREFIX + show(items[0]) == indentation + text;
        TrimPadded(indentation, text);
      }
      FormatItemsCons(items, show);
      FormatItemsTrims(items[1..], show, indentation);
      TrimsToConcat([indentation + ITEM_PREFIX + show(items[0])], [text],
                    FormatItems(items[1..], show, indentation), FormatItems(items[1..], show, []));
    }
  }

  /** The section names and items display as non-empty trimmed text. */
  predicate SectionsShownTrimmed<T>(sections: seq<Section<T>>, show: T -> string) {
    forall i :: 0 <= i < |sections| ==>
      sections[i].name != [] && Trimmed(sections[i].name) && ShownTrimmed(sections[i].items, show)
  }

  /** Indented section lines trim to the unindented ones. */
  lemma {:induction false} FormatSectionsTrims<T>(sections: seq<Section<T>>, show: T -> string, indentation: string)
    requires forall i :: 0 <= i < |indentation| ==> IsWhitespace(indentation[i])
    requires SectionsShownTrimmed(sections, show)
    ensures TrimsTo(FormatSections(sections, show, indentation), FormatSections(sections, show, []))
  {
    if sections != [] {
      var s := sections[0];
      assert Trim(indentation + s.name) == s.name by {
        TrimPadded(indentation, s.name);
      }
      assert TrimsTo([indentation + s.name], [s.name]);
      FormatItemsTrims(s.items, show, indentation + indentation);
      TrimsToConcat([indentation + s.name], [s.name],
                    FormatItems(s.items, show, indentation + indentation), FormatItems(s.items, show, []));
      var empty: string := [];
      assert FormatSection(s, show, []) == [s.name] + FormatItems(s.items, show, []) by {
        assert empty + s.name == s.name && empty + empty == empty;
      }
      FormatSectionsTrims(sections[1..], show, indentation);
      TrimsToConcat(FormatSection(s, show, indentation), FormatSection(s, show, []),
                    FormatSections(sections[1..], show, indentation), FormatSections(sections[1..], show, []));
    }
  }

  /** A good list displayed at any indentation trims, line by line, to its
      display at indentation 0. */
  lemma FormatListTrims<T>(list: List<T>, show: T -> string, width: nat, parse: string -> Result<T, ParseError>)
    requires GoodList(list, show, parse)
    ensures TrimsTo(FormatList(list, show, width), FormatList(list, show, 0))
  {
    assert Spaces(0) == [];
    match list
    case Basic(items) =>
      FormatItemsTrims(items, show, Spaces(width));
    case Sectioned(sections) =>
      FormatSectionsTrims(sections, show, Spaces(width));
  }

  /** Good items displayed at an indentation without line breaks give
      plain lines. */
  lemma {:induction false} FormatItemsPlain<T>(items: seq<T>, show: T -> string, indentation: string,
                                               parse: string -> Result<T, ParseError>)
    requires OneLine(indentation) && forall i :: 0 <= i < |items| ==> GoodItem(items[i], show, parse)
    ensures AllPlain(FormatItems(items, show, indentation))
    decreases |items|
  {
    if items != [] {
      assert GoodItem(items[0], show, parse);
      PlainAfter(indentation + ITEM_PREFIX, show(items[0]));
      FormatItemsPlain(items[1..], show, indentation, parse);
      AllPlainConcat([indentation + ITEM_PREFIX + show(items[0])], FormatItems(items[1..], show, indentation));
    }
  }

  /** Good sections displayed at an indentation without line breaks give
      plain lines. */
  lemma {:induction false} FormatSectionsPlain<T>(sections: seq<Section<T>>, show: T -> string, indentation: string,
                                                  parse: string -> Result<T, ParseError>)
    requires OneLine(indentation)
    requires forall i :: 0 <= i < |sections| ==>
      GoodName(sections[i].name) && forall j :: 0 <= j < |sections[i].items| ==> GoodItem(sections[i].items[j], show, parse)
    ensures AllPlain(FormatSections(sections, show, indentation))
    decreases |sections|
  {
    if sections != [] {
      var s := sections[0];
      PlainAfter(indentation, s.name);
      FormatItemsPlain(s.items, show, indentation + indentation, parse);
      AllPlainConcat([indentation + s.name], FormatItems(s.items, show, indentation + indentation));
      FormatSectionsPlain(sections[1..], show, indentation, parse);
      AllPlainConcat(FormatSection(s, show, indentation), FormatSections(sections[1..], show, indentation));
    }
  }

  /** Every line a good list displays as is plain, so the written list reads
      back line by line as the lines displayed. */
  lemma FormatListPlain<T>(list: List<T>, show: T -> string, width: nat, parse: string -> Result<T, ParseError>)
    requires GoodList(list, show, parse)
    ensures AllPlain(FormatList(list, show, width))
  {
    assert OneLine(Spaces(width));
    match list
    case Basic(items) =>
      FormatItemsPlain(items, show, Spaces(width), parse);
    case Sectioned(sections) =>
      FormatSectionsPlain(sections, show, Spaces(width), parse);
  }
}
