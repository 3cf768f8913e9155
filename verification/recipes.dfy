/** The recipe document (src/recipe/mod.rs): five blocks in a fixed order,
    namely the title, the metadata, the ingredients, the instructions and
    the optional notes, read with a trimming block reader, and the canonical
    text a recipe displays as. */
module Recipes {
  import opened Wrappers
  import opened Strings
  import opened Errors
  import opened Blocks
  import opened Lists
  import opened Ingredients
  import opened MetadataBlock

  datatype Recipe = Recipe(
    title: string,
    metadata: Metadata,
    ingredients: List<Ingredient>,
    instructions: List<string>,
    notes: seq<string>)

  const INGREDIENTS_HEADLINE: string := "Ingredients"
  const INSTRUCTIONS_HEADLINE: string := "Instructions"
  const NOTES_HEADLINE: string := "Notes"

  /** The display indentation of list lines (`" ".repeat(2)`). */
  const INDENT_WIDTH: nat := 2

  const MISSING_TITLE: ParseError := ParseError("missing title")
  const MISSING_METADATA: ParseError := ParseError("missing metadata")
  const MISSING_INGREDIENTS: ParseError := ParseError("missing ingredients")
  const MISSING_INSTRUCTIONS: ParseError := ParseError("missing instructions")
  const TITLE_NOT_ALONE: ParseError := ParseError("missing empty line after title line")
  const EMPTY_TITLE: ParseError := Empty("title line")
  const MISSING_INGREDIENTS_HEADLINE: ParseError := ParseError("missing headline 'Ingredients'")
  const MISSING_INSTRUCTIONS_HEADLINE: ParseError := ParseError("missing headline 'Instructions'")
  const MISSING_NOTES_HEADLINE: ParseError := ParseError("expected headline 'Notes'")

  /** `ParseFromStr for String`: the text itself. */
  function ParseString(s: string): Result<string, ParseError> {
    Ok(s)
  }

  /** `Display for String`. */
  function ShowString(s: string): string {
    s
  }

  // ---------------------------------------------------------------------
  // The block parsers

  /** `Recipe::parse_title`: the title block is exactly one line. */
  function ParseTitle(lines: seq<string>): Result<string, ParseError> {
    if |lines| > 1 then Err(TITLE_NOT_ALONE)
    else if lines == [] then Err(EMPTY_TITLE)
    else Ok(lines[0])
  }

  /** `Recipe::parse_ingredients`: the headline, then a list of ingredients. */
  function ParseIngredients(lines: seq<string>): Result<List<Ingredient>, ParseError> {
    if lines == [] || lines[0] != INGREDIENTS_HEADLINE then Err(MISSING_INGREDIENTS_HEADLINE)
    else ParseList(lines[1..], ParseIngredient)
  }

  /** `Recipe::parse_instructions`: the headline, then a list of instructions. */
  function ParseInstructions(lines: seq<string>): Result<List<string>, ParseError> {
    if lines == [] || lines[0] != INSTRUCTIONS_HEADLINE then Err(MISSING_INSTRUCTIONS_HEADLINE)
    else ParseList(lines[1..], ParseString)
  }

  /** `Recipe::parse_notes`: the headline, then a flat list of notes. */
  function ParseNotes(lines: seq<string>): Result<seq<string>, ParseError> {
    if lines == [] || lines[0] != NOTES_HEADLINE then Err(MISSING_NOTES_HEADLINE)
    else ParseBasic(lines[1..], ParseString)
  }

  // ---------------------------------------------------------------------
  // Reading a recipe

  /** The first `n` blocks a trimming reader hands out, `None` once the
      lines run out of non-blank ones. */
  function ReadBlocks(lines: seq<string>, n: nat): (r: seq<Option<seq<string>>>)
    ensures |r| == n
    decreases n
  {
    if n == 0 then []
    else
      var (block, rest) := ReadBlock(lines, true);
      [block] + ReadBlocks(rest, n - 1)
  }

  /** The parse after the metadata: ingredients, instructions and notes, in
      that order, each from its block. */
  function ParseRest(title: string, metadata: Metadata, blocks: seq<Option<seq<string>>>): Result<Recipe, ParseError>
    requires |blocks| == 5
  {
    if blocks[2].None? then Err(MISSING_INGREDIENTS)
    else
      var ingredients :- ParseIngredients(blocks[2].value);
      if blocks[3].None? then Err(MISSING_INSTRUCTIONS)
      else
        var instructions :- ParseInstructions(blocks[3].value);
        var notes :- if blocks[4].None? then Ok([]) else ParseNotes(blocks[4].value);
        Ok(Recipe(title, metadata, ingredients, instructions, notes))
  }

  /** What `Recipe::parse_from` may return for the lines: the blocks are
      read in order and the first failure decides; the metadata block gives
      any result its conversion may give. */
  ghost predicate RecipeResult(lines: seq<string>, r: Result<Recipe, ParseError>) {
    var blocks := ReadBlocks(lines, 5);
    if blocks[0].None? then r == Err(MISSING_TITLE)
    else if ParseTitle(blocks[0].value).Err? then r == Err(ParseTitle(blocks[0].value).error)
    else if blocks[1].None? then r == Err(MISSING_METADATA)
    else exists metadata :: MetadataResult(blocks[1].value, metadata) && r == RestAfter(ParseTitle(blocks[0].value).value, metadata, blocks)
  }

  /** The outcome once the metadata conversion has given `metadata`. */
  function RestAfter(title: string, metadata: Result<Metadata, ParseError>, blocks: seq<Option<seq<string>>>): Result<Recipe, ParseError>
    requires |blocks| == 5
  {
    match metadata
    case Err(e) => Err(e)
    case Ok(m) => ParseRest(title, m, blocks)
  }

  /** `Recipe::parse_from`: one trimming reader, five `next_block` calls, each
      block handed to its parser as soon as it is read. */
  method ParseFrom(lines: seq<string>) returns (r: Result<Recipe, ParseError>)
    ensures RecipeResult(lines, r)
  {
    ghost var blocks := ReadBlocks(lines, 5);
    var reader := new Reader(lines, true);
    var titleBlock := reader.NextBlock();
    assert titleBlock == blocks[0] && blocks[1..] == ReadBlocks(reader.Unread(), 4);
    if titleBlock.None? {
      return Err(MISSING_TITLE);
    }
    var title := ParseTitle(titleBlock.value);
    if title.Err? {
      return Err(title.error);
    }
    var metadataBlock := reader.NextBlock();
    assert metadataBlock == blocks[1] && blocks[2..] == ReadBlocks(reader.Unread(), 3) by {
      assert blocks[1..][1..] == blocks[2..];
    }
    if metadataBlock.None? {
      return Err(MISSING_METADATA);
    }
    var metadata := FromLines(metadataBlock.value);
    r := ReadRest(reader, title.value, metadata, blocks);
  }

  /** The rest of `parse_from`, from the ingredients block on. */
  method ReadRest(reader: Reader, title: string, metadata: Result<Metadata, ParseError>, ghost blocks: seq<Option<seq<string>>>)
    returns (r: Result<Recipe, ParseError>)
    requires reader.Valid() && reader.shouldTrim
    requires |blocks| == 5 && blocks[2..] == ReadBlocks(reader.Unread(), 3)
    modifies reader
    ensures r == RestAfter(title, metadata, blocks)
  {
    if metadata.Err? {
      return Err(metadata.error);
    }
    var ingredientsBlock := reader.NextBlock();
    assert ingredientsBlock == blocks[2] && blocks[3..] == ReadBlocks(reader.Unread(), 2) by {
      assert blocks[2..][1..] == blocks[3..];
    }
    if ingredientsBlock.None? {
      return Err(MISSING_INGREDIENTS);
    }
    var ingredients := ParseIngredients(ingredientsBlock.value);
    if ingredients.Err? {
      return Err(ingredients.error);
    }
    var instructionsBlock := reader.NextBlock();
    assert instructionsBlock == blocks[3] && blocks[4..] == ReadBlocks(reader.Unread(), 1) by {
      assert blocks[3..][1..] == blocks[4..];
    }
    if instructionsBlock.None? {
      return Err(MISSING_INSTRUCTIONS);
    }
    var instructions := ParseInstructions(instructionsBlock.value);
    if instructions.Err? {
      return Err(instructions.error);
    }
    var notesBlock := reader.NextBlock();
    assert notesBlock == blocks[4];
    var notes := if notesBlock.None? then Ok([]) else ParseNotes(notesBlock.value);
    if notes.Err? {
      return Err(notes.error);
    }
    r := Ok(Recipe(title, metadata.value, ingredients.value, instructions.value, notes.value));
  }

  // ---------------------------------------------------------------------
  // Display

  /** The ingredients headline and the ingredient list. */
  function IngredientsBlock(recipe: Recipe, width: nat): seq<string> {
    [INGREDIENTS_HEADLINE] + FormatList(recipe.ingredients, ShowIngredient, width)
  }

  /** The instructions headline and the instruction list. */
  function InstructionsBlock(recipe: Recipe, width: nat): seq<string> {
    [INSTRUCTIONS_HEADLINE] + FormatList(recipe.instructions, ShowString, width)
  }

  /** The notes headline and the notes, as indented items. */
  function NotesBlock(recipe: Recipe, width: nat): seq<string> {
    [NOTES_HEADLINE] + FormatItems(recipe.notes, ShowString, Spaces(width))
  }

  /** `Display for Recipe`, one string per line: the title, the metadata
      lines, the ingredients and the instructions, and the notes when there
      are any, each block followed by an empty line but the last. */
  function ShowRecipe(recipe: Recipe): seq<string> {
    JoinBlocks(ShownBlocks(recipe, INDENT_WIDTH))
  }

  /** The blocks, each followed by one empty line but the last. */
  function JoinBlocks(blocks: seq<seq<string>>): seq<string> {
    if blocks == [] then []
    else if |blocks| == 1 then blocks[0]
    else blocks[0] + [""] + JoinBlocks(blocks[1..])
  }

  /** The blocks a recipe displays as, in order, the notes block only when
      there are notes. */
  function ShownBlocks(recipe: Recipe, width: nat): seq<seq<string>> {
    [[recipe.title], ShowMetadata(recipe.metadata), IngredientsBlock(recipe, width), InstructionsBlock(recipe, width)]
    + (if recipe.notes == [] then [] else [NotesBlock(recipe, width)])
  }

  // ---------------------------------------------------------------------
  // Reading displayed blocks back

  lemma ReadBlocksOfBlank(n: nat)
    ensures forall i :: 0 <= i < n ==> ReadBlocks([], n)[i].None?
  {
    if n > 0 {
      assert ReadBlock([], true) == (None, []);
      ReadBlocksOfBlank(n - 1);
      assert forall i :: 0 < i < n ==> ReadBlocks([], n)[i] == ReadBlocks([], n - 1)[i - 1];
    }
  }

  /** A block of lines that trim to non-empty lines, followed by nothing or
      by an empty line, reads as the trimmed lines. */
  lemma ReadTrimmedBlock(block: seq<string>, flat: seq<string>, tail: seq<string>)
    requires block != [] && TrimsTo(block, flat)
    requires tail == [] || tail[0] == []
    ensures ReadBlock(block + tail, true) == (Some(flat), if tail == [] then [] else tail[1..])
  {
    assert forall i :: 0 <= i < |block| ==> !Blank(block[i], true);
    assert tail != [] ==> Blank(tail[0], true) by {
      if tail != [] {
        assert Trim(tail[0]) == [];
      }
    }
    NextBlockOf([], block, tail, true);
    assert [] + block + tail == block + tail;
    assert PrepareAll(block, true) == flat;
  }

  lemma ReadBlocksCons(lines: seq<string>, n: nat)
    requires n > 0
    ensures ReadBlocks(lines, n) == [ReadBlock(lines, true).0] + ReadBlocks(ReadBlock(lines, true).1, n - 1)
  {
  }

  /** The lines after the first of the joined blocks, once the reader has
      consumed it and the empty line after it. */
  function AfterFirst(bs: seq<seq<string>>, tail: seq<string>): seq<string>
    requires bs != []
  {
    if |bs| == 1 then (if tail == [] then [] else tail[1..]) else JoinBlocks(bs[1..]) + tail
  }

  /** The lines after the first of the joined blocks, starting with the
      empty line that ends it (if any). */
  function AfterHead(bs: seq<seq<string>>, tail: seq<string>): seq<string>
    requires bs != []
  {
    if |bs| == 1 then tail else [""] + (JoinBlocks(bs[1..]) + tail)
  }

  lemma JoinedHead(bs: seq<seq<string>>, tail: seq<string>)
    requires bs != [] && (tail == [] || tail[0] == [])
    ensures JoinBlocks(bs) + tail == bs[0] + AfterHead(bs, tail)
    ensures var after := AfterHead(bs, tail);
      (after == [] || after[0] == []) && (if after == [] then [] else after[1..]) == AfterFirst(bs, tail)
  {
    if |bs| > 1 {
      assert JoinBlocks(bs) == bs[0] + [""] + JoinBlocks(bs[1..]);
      assert AfterHead(bs, tail)[1..] == JoinBlocks(bs[1..]) + tail;
    }
  }

  /** The first of the joined blocks reads as its trimmed lines. */
  lemma ReadFirstJoined(bs: seq<seq<string>>, flat: seq<string>, tail: seq<string>)
    requires bs != [] && bs[0] != [] && TrimsTo(bs[0], flat)
    requires tail == [] || tail[0] == []
    ensures ReadBlock(JoinBlocks(bs) + tail, true) == (Some(flat), AfterFirst(bs, tail))
  {
    JoinedHead(bs, tail);
    ReadTrimmedBlock(bs[0], flat, AfterHead(bs, tail));
  }

  /** Blocks joined by empty lines, with possibly more lines after an empty
      line, read back block by block, trimmed; with nothing after them the
      reader then finds no more blocks. */
  lemma {:induction false} ReadJoinedBlocks(bs: seq<seq<string>>, flats: seq<seq<string>>, tail: seq<string>, n: nat)
    requires |bs| == |flats|
    requires forall i :: 0 <= i < |bs| ==> bs[i] != [] && TrimsTo(bs[i], flats[i])
    requires tail == [] || (bs != [] && tail[0] == [])
    decreases n
    ensures var read := ReadBlocks(JoinBlocks(bs) + tail, n);
      && (forall i :: 0 <= i < n && i < |bs| ==> read[i] == Some(flats[i]))
      && (tail == [] ==> forall i :: |bs| <= i < n ==> read[i].None?)
  {
    if n > 0 && bs == [] {
      assert JoinBlocks(bs) + tail == [];
      ReadBlocksOfBlank(n);
    } else if n > 0 {
      var lines := JoinBlocks(bs) + tail;
      var rest := AfterFirst(bs, tail);
      var read := ReadBlocks(lines, n);
      assert read == [Some(flats[0])] + ReadBlocks(rest, n - 1) by {
        ReadFirstJoined(bs, flats[0], tail);
        ReadBlocksCons(lines, n);
      }
      if |bs| > 1 || tail == [] {
        var tail' := if |bs| == 1 then [] else tail;
        assert rest == JoinBlocks(bs[1..]) + tail';
        ReadJoinedBlocks(bs[1..], flats[1..], tail', n - 1);
        forall i | 0 < i < n
          ensures i < |bs| ==> read[i] == Some(flats[i])
          ensures tail == [] && |bs| <= i ==> read[i].None?
        {
          assert read[i] == ReadBlocks(rest, n - 1)[i - 1];
          if i < |bs| {
            assert flats[1..][i - 1] == flats[i];
          }
        }
      }
    }
  }

  // ---------------------------------------------------------------------
  // The round trip

  /** A recipe that displays and parses back unchanged: a non-empty trimmed
      title, good metadata, lists whose items and section names display
      trimmed and parse back, and non-empty trimmed notes. Every text is one
      line: a line break inside one would split it when the written file is
      read back line by line. */
  ghost predicate GoodRecipe(recipe: Recipe) {
    && recipe.title != [] && Trimmed(recipe.title) && OneLine(recipe.title)
    && GoodMetadata(recipe.metadata)
    && GoodList(recipe.ingredients, ShowIngredient, ParseIngredient)
    && GoodList(recipe.instructions, ShowString, ParseString)
    && forall i :: 0 <= i < |recipe.notes| ==> GoodItem(recipe.notes[i], ShowString, ParseString)
  }

  /** What the reader sees of each displayed block: the title, the metadata
      lines, and the headlines followed by the unindented lists. */
  function FlatBlocks(recipe: Recipe): seq<seq<string>> {
    [[recipe.title],
     ShowMetadata(recipe.metadata),
     [INGREDIENTS_HEADLINE] + FormatList(recipe.ingredients, ShowIngredient, 0),
     [INSTRUCTIONS_HEADLINE] + FormatList(recipe.instructions, ShowString, 0)]
    + (if recipe.notes == [] then [] else [[NOTES_HEADLINE] + FormatItems(recipe.notes, ShowString, [])])
  }

  lemma TrimmedLines(lines: seq<string>)
    requires forall i :: 0 <= i < |lines| ==> lines[i] != [] && Trimmed(lines[i])
    ensures TrimsTo(lines, lines)
  {
    forall i | 0 <= i < |lines|
      ensures Trim(lines[i]) == lines[i]
    {
      TrimmedIsFixed(lines[i]);
    }
  }

  /** A headline followed by lines that trim to `flat`. */
  lemma HeadlineTrims(headline: string, lines: seq<string>, flat: seq<string>)
    requires headline != [] && Trimmed(headline) && TrimsTo(lines, flat)
    ensures TrimsTo([headline] + lines, [headline] + flat)
  {
    TrimmedLines([headline]);
    TrimsToConcat([headline], [headline], lines, flat);
  }

  /** A headline and a good list displayed at the recipe's indentation trim
      to the headline and the list displayed without indentation. */
  lemma ListBlockTrims<T>(headline: string, list: List<T>, show: T -> string, width: nat, parse: string -> Result<T, ParseError>)
    requires headline != [] && Trimmed(headline) && GoodList(list, show, parse)
    ensures TrimsTo([headline] + FormatList(list, show, width), [headline] + FormatList(list, show, 0))
  {
    FormatListTrims(list, show, width, parse);
    HeadlineTrims(headline, FormatList(list, show, width), FormatList(list, show, 0));
  }

  lemma NotesBlockTrims(notes: seq<string>, indentation: string)
    requires forall i :: 0 <= i < |indentation| ==> IsWhitespace(indentation[i])
    requires forall i :: 0 <= i < |notes| ==> GoodItem(notes[i], ShowString, ParseString)
    ensures TrimsTo([NOTES_HEADLINE] + FormatItems(notes, ShowString, indentation), [NOTES_HEADLINE] + FormatItems(notes, ShowString, []))
  {
    var lines, flat := FormatItems(notes, ShowString, indentation), FormatItems(notes, ShowString, []);
    assert TrimsTo(lines, flat) by {
      assert ShownTrimmed(notes, ShowString);
      FormatItemsTrims(notes, ShowString, indentation);
    }
    HeadlineTrims(NOTES_HEADLINE, lines, flat);
  }

  /** Each displayed block of a good recipe is non-empty and trims, line by
      line, to the matching flat block. */
  lemma ShownBlocksTrim(recipe: Recipe, width: nat)
    requires GoodRecipe(recipe)
    ensures var (bs, flats) := (ShownBlocks(recipe, width), FlatBlocks(recipe));
      |bs| == |flats| && forall i :: 0 <= i < |bs| ==> bs[i] != [] && TrimsTo(bs[i], flats[i])
  {
    var x0, x1, x2, x3 := [recipe.title], ShowMetadata(recipe.metadata), IngredientsBlock(recipe, width), InstructionsBlock(recipe, width);
    var f2 := [INGREDIENTS_HEADLINE] + FormatList(recipe.ingredients, ShowIngredient, 0);
    var f3 := [INSTRUCTIONS_HEADLINE] + FormatList(recipe.instructions, ShowString, 0);
    var x4: seq<seq<string>> := if recipe.notes == [] then [] else [NotesBlock(recipe, width)];
    var f4: seq<seq<string>> := if recipe.notes == [] then [] else [[NOTES_HEADLINE] + FormatItems(recipe.notes, ShowString, [])];
    assert TrimsTo(x0, x0) by {
      TrimmedLines(x0);
    }
    assert x1 != [] && TrimsTo(x1, x1) by {
      ShownLinesTrimmed(recipe.metadata);
      TrimmedLines(x1);
    }
    assert TrimsTo(x2, f2) by {
      ListBlockTrims(INGREDIENTS_HEADLINE, recipe.ingredients, ShowIngredient, width, ParseIngredient);
    }
    assert TrimsTo(x3, f3) by {
      ListBlockTrims(INSTRUCTIONS_HEADLINE, recipe.instructions, ShowString, width, ParseString);
    }
    assert |x4| == |f4| && forall i :: 0 <= i < |x4| ==> x4[i] != [] && TrimsTo(x4[i], f4[i]) by {
      if recipe.notes != [] {
        NotesBlockTrims(recipe.notes, Spaces(width));
      }
    }
    BlocksShape(recipe, width);
    PairedBlocks([x0, x1, x2, x3], [x0, x1, f2, f3], x4, f4);
  }

  /** Blocks that trim pairwise still do so once concatenated. */
  lemma PairedBlocks(xs: seq<seq<string>>, fs: seq<seq<string>>, ys: seq<seq<string>>, gs: seq<seq<string>>)
    requires |xs| == |fs| && forall i :: 0 <= i < |xs| ==> xs[i] != [] && TrimsTo(xs[i], fs[i])
    requires |ys| == |gs| && forall i :: 0 <= i < |ys| ==> ys[i] != [] && TrimsTo(ys[i], gs[i])
    ensures |xs + ys| == |fs + gs|
    ensures forall i :: 0 <= i < |xs + ys| ==> (xs + ys)[i] != [] && TrimsTo((xs + ys)[i], (fs + gs)[i])
  {
    forall i | 0 <= i < |xs + ys|
      ensures (xs + ys)[i] != [] && TrimsTo((xs + ys)[i], (fs + gs)[i])
    {
      if i >= |xs| {
        assert (xs + ys)[i] == ys[i - |xs|] && (fs + gs)[i] == gs[i - |xs|];
      }
    }
  }

  /** The displayed and the flat blocks, spelled out part by part. */
  lemma BlocksShape(recipe: Recipe, width: nat)
    ensures ShownBlocks(recipe, width) == [[recipe.title], ShowMetadata(recipe.metadata), IngredientsBlock(recipe, width), InstructionsBlock(recipe, width)]
      + (if recipe.notes == [] then [] else [NotesBlock(recipe, width)])
    ensures FlatBlocks(recipe) == [[recipe.title], ShowMetadata(recipe.metadata),
      [INGREDIENTS_HEADLINE] + FormatList(recipe.ingredients, ShowIngredient, 0),
      [INSTRUCTIONS_HEADLINE] + FormatList(recipe.instructions, ShowString, 0)]
      + (if recipe.notes == [] then [] else [[NOTES_HEADLINE] + FormatItems(recipe.notes, ShowString, [])])
  {
  }

  /** The flat blocks of a good recipe parse back to its parts. */
  lemma FlatBlocksParse(recipe: Recipe)
    requires GoodRecipe(recipe)
    ensures var flats := FlatBlocks(recipe);
      && ParseTitle(flats[0]) == Ok(recipe.title)
      && ParseIngredients(flats[2]) == Ok(recipe.ingredients)
      && ParseInstructions(flats[3]) == Ok(recipe.instructions)
      && (recipe.notes != [] ==> ParseNotes(flats[4]) == Ok(recipe.notes))
  {
    var flats := FlatBlocks(recipe);
    assert flats[2][1..] == FormatList(recipe.ingredients, ShowIngredient, 0);
    ParseFormatList(recipe.ingredients, ShowIngredient, ParseIngredient);
    assert flats[3][1..] == FormatList(recipe.instructions, ShowString, 0);
    ParseFormatList(recipe.instructions, ShowString, ParseString);
    if recipe.notes != [] {
      assert flats[4][1..] == FormatItems(recipe.notes, ShowString, []);
      ParseBasicFormat(recipe.notes, ShowString, ParseString);
    }
  }

  /** The blocks a trimming reader hands out for the display of a good
      recipe, followed by nothing or by an empty line and anything else, are
      its flat blocks; without anything after, the notes block is missing
      exactly when there are no notes. */
  lemma ShownRecipeBlocks(recipe: Recipe, width: nat, tail: seq<string>)
    requires GoodRecipe(recipe)
    requires tail == [] || (recipe.notes != [] && tail[0] == [])
    ensures var blocks := ReadBlocks(JoinBlocks(ShownBlocks(recipe, width)) + tail, 5); var flats := FlatBlocks(recipe);
      && blocks[0] == Some(flats[0]) && blocks[1] == Some(flats[1])
      && blocks[2] == Some(flats[2]) && blocks[3] == Some(flats[3])
      && blocks[4] == if recipe.notes == [] then None else Some(flats[4])
  {
    ShownBlocksTrim(recipe, width);
    ReadJoinedBlocks(ShownBlocks(recipe, width), FlatBlocks(recipe), tail, 5);
  }

  /** Displaying a good recipe and parsing the lines back gives the same
      recipe. */
  lemma ParseShowRecipe(recipe: Recipe, r: Result<Recipe, ParseError>)
    requires GoodRecipe(recipe) && RecipeResult(ShowRecipe(recipe), r)
    ensures r == Ok(recipe)
  {
    var lines := ShowRecipe(recipe);
    assert lines + [] == lines;
    ParseTrailing(recipe, [], r);
  }

  /** Blocks of plain lines join into plain lines. */
  lemma {:induction false} JoinBlocksPlain(blocks: seq<seq<string>>)
    requires forall i :: 0 <= i < |blocks| ==> AllPlain(blocks[i])
    ensures AllPlain(JoinBlocks(blocks))
    decreases |blocks|
  {
    if |blocks| > 1 {
      JoinBlocksPlain(blocks[1..]);
      AllPlainConcat(blocks[0], [""]);
      AllPlainConcat(blocks[0] + [""], JoinBlocks(blocks[1..]));
    }
  }

  lemma HeadlinesPlain()
    ensures PlainLine(INGREDIENTS_HEADLINE) && PlainLine(INSTRUCTIONS_HEADLINE) && PlainLine(NOTES_HEADLINE)
  {
  }

  /** A plain headline over a good list displayed at any width gives plain
      lines. */
  lemma ListBlockPlain<T>(headline: string, list: List<T>, show: T -> string, width: nat,
                          parse: string -> Result<T, ParseError>)
    requires PlainLine(headline) && GoodList(list, show, parse)
    ensures AllPlain([headline] + FormatList(list, show, width))
  {
    FormatListPlain(list, show, width, parse);
    AllPlainConcat([headline], FormatList(list, show, width));
  }

  /** The notes block of good notes gives plain lines. */
  lemma NotesBlockPlain(recipe: Recipe, width: nat)
    requires forall i :: 0 <= i < |recipe.notes| ==> GoodItem(recipe.notes[i], ShowString, ParseString)
    ensures AllPlain(NotesBlock(recipe, width))
  {
    HeadlinesPlain();
    assert OneLine(Spaces(width));
    FormatItemsPlain(recipe.notes, ShowString, Spaces(width), ParseString);
    AllPlainConcat([NOTES_HEADLINE], FormatItems(recipe.notes, ShowString, Spaces(width)));
  }

  /** Every displayed block of a good recipe consists of plain lines. */
  lemma ShownBlocksPlain(recipe: Recipe, width: nat)
    requires GoodRecipe(recipe)
    ensures forall i :: 0 <= i < |ShownBlocks(recipe, width)| ==> AllPlain(ShownBlocks(recipe, width)[i])
  {
    var blocks := ShownBlocks(recipe, width);
    PlainAfter([], recipe.title);
    assert AllPlain(blocks[0]);
    ShownMetadataPlain(recipe.metadata);
    HeadlinesPlain();
    ListBlockPlain(INGREDIENTS_HEADLINE, recipe.ingredients, ShowIngredient, width, ParseIngredient);
    ListBlockPlain(INSTRUCTIONS_HEADLINE, recipe.instructions, ShowString, width, ParseString);
    if recipe.notes != [] {
      NotesBlockPlain(recipe, width);
    }
  }

  /** Every line a good recipe displays as is plain. */
  lemma ShownLinesPlain(recipe: Recipe)
    requires GoodRecipe(recipe)
    ensures AllPlain(ShowRecipe(recipe))
  {
    ShownBlocksPlain(recipe, INDENT_WIDTH);
    JoinBlocksPlain(ShownBlocks(recipe, INDENT_WIDTH));
  }

  /** The text `Display for Recipe` writes for a good recipe, read back
      line by line and parsed, gives the same recipe. */
  lemma ParseWrittenRecipe(recipe: Recipe, r: Result<Recipe, ParseError>)
    requires GoodRecipe(recipe) && RecipeResult(TextLines(WrittenText(ShowRecipe(recipe))), r)
    ensures r == Ok(recipe)
  {
    ShownLinesPlain(recipe);
    TextLinesWritten(ShowRecipe(recipe));
    ParseShowRecipe(recipe, r);
  }

  /** The display of a recipe starts with its title. */
  lemma ShowRecipeHead(recipe: Recipe)
    ensures ShowRecipe(recipe) != [] && ShowRecipe(recipe)[0] == recipe.title
  {
    var blocks := ShownBlocks(recipe, INDENT_WIDTH);
    assert |blocks| > 1 && blocks[0] == [recipe.title];
    assert JoinBlocks(blocks) == blocks[0] + [""] + JoinBlocks(blocks[1..]);
  }

  /** A title with a line break between two non-blank lines is written as
      two lines, and the written text is then rejected: whatever else the
      recipe holds, reading it back fails with "missing empty line after
      title line". */
  lemma LineBreakInTitle(recipe: Recipe, a: string, b: string, r: Result<Recipe, ParseError>)
    requires recipe.title == a + "\n" + b && PlainLine(a) && PlainLine(b) && Trim(a) != [] && Trim(b) != []
    requires RecipeResult(TextLines(WrittenText(ShowRecipe(recipe))), r)
    ensures r == Err(TITLE_NOT_ALONE)
  {
    var lines := ShowRecipe(recipe);
    ShowRecipeHead(recipe);
    LineBreakSplits(a, b, lines);
    TitleNotAlone(a, b, TextLines(WrittenText(lines[1..])), r);
  }

  /** `parse_from` reads five blocks and no further: a good recipe with notes
      parses the same with any lines after an empty line following it. */
  lemma ParseTrailing(recipe: Recipe, tail: seq<string>, r: Result<Recipe, ParseError>)
    requires GoodRecipe(recipe) && (tail == [] || (recipe.notes != [] && tail[0] == []))
    requires RecipeResult(ShowRecipe(recipe) + tail, r)
    ensures r == Ok(recipe)
  {
    var lines := ShowRecipe(recipe) + tail;
    var blocks := ReadBlocks(lines, 5);
    var flats := FlatBlocks(recipe);
    ShownRecipeBlocks(recipe, INDENT_WIDTH, tail);
    FlatBlocksParse(recipe);
    var metadata :| MetadataResult(blocks[1].value, metadata) && r == RestAfter(recipe.title, metadata, blocks);
    ParseShowMetadata(recipe.metadata, metadata);
  }

  // ---------------------------------------------------------------------
  // What a successful parse implies, and failures

  /** A successful parse after the metadata found the ingredients and the
      instructions blocks and parsed each block with its own parser. */
  lemma RestParts(title: string, metadata: Result<Metadata, ParseError>, blocks: seq<Option<seq<string>>>)
    requires |blocks| == 5 && RestAfter(title, metadata, blocks).Ok?
    ensures var recipe := RestAfter(title, metadata, blocks).value;
      && recipe.title == title && metadata == Ok(recipe.metadata)
      && blocks[2].Some? && blocks[3].Some?
      && ParseIngredients(blocks[2].value) == Ok(recipe.ingredients)
      && ParseInstructions(blocks[3].value) == Ok(recipe.instructions)
      && (if blocks[4].None? then recipe.notes == [] else ParseNotes(blocks[4].value) == Ok(recipe.notes))
  {
  }

  /** A successful parse found the four required blocks, each parsed by its
      own parser; the title is a single non-empty trimmed line, and the
      notes are empty when the fifth block is missing. */
  lemma ParsedParts(lines: seq<string>, r: Result<Recipe, ParseError>)
    requires RecipeResult(lines, r) && r.Ok?
    ensures var blocks := ReadBlocks(lines, 5);
      && blocks[0].Some? && blocks[1].Some? && blocks[2].Some? && blocks[3].Some?
      && blocks[0].value == [r.value.title]
      && r.value.title != [] && Trimmed(r.value.title)
      && MetadataResult(blocks[1].value, Ok(r.value.metadata))
      && ParseIngredients(blocks[2].value) == Ok(r.value.ingredients)
      && ParseInstructions(blocks[3].value) == Ok(r.value.instructions)
      && (if blocks[4].None? then r.value.notes == [] else ParseNotes(blocks[4].value) == Ok(r.value.notes))
  {
    var blocks := ReadBlocks(lines, 5);
    assert blocks[0].Some? && blocks[1].Some?;
    var title := ParseTitle(blocks[0].value).value;
    var metadata :| MetadataResult(blocks[1].value, metadata) && r == RestAfter(title, metadata, blocks);
    RestParts(title, metadata, blocks);
    assert blocks[0].value == [title] && title != [] && Trimmed(title) by {
      NextBlockShape(lines, true);
      assert blocks[0] == ReadBlock(lines, true).0;
    }
  }

  /** Input with no non-blank line has no title. */
  lemma BlankInputHasNoTitle(lines: seq<string>, r: Result<Recipe, ParseError>)
    requires forall i :: 0 <= i < |lines| ==> Trim(lines[i]) == []
    requires RecipeResult(lines, r)
    ensures r == Err(MISSING_TITLE)
  {
    NextBlockShape(lines, true);
  }

  /** The first non-blank line must be followed by a blank one: two
      non-blank lines at the start are rejected. */
  lemma TitleNotAlone(title: string, next: string, rest: seq<string>, r: Result<Recipe, ParseError>)
    requires Trim(title) != [] && Trim(next) != []
    requires RecipeResult([title, next] + rest, r)
    ensures r == Err(TITLE_NOT_ALONE)
  {
    TwoLinesOneBlock(title, next, rest);
  }
}
