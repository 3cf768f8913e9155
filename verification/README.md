# sweet-potator, modelled in Dafny

sweet-potator keeps a collection of recipes as plain-text files, one
directory per recipe, and builds a static HTML site from them. This project
models the parts of it that decide what a recipe file means and where it
lives, and proves properties of them:

- **The recipe text format** (`src/recipe/`):
  - the block reader, which hands out blank-line-separated runs of lines;
  - bullet lists, flat or in named sections;
  - ingredient lines (`name, kind: quantity`) with their `u32` / `u16.u16` /
    `u8/u8` / mixed-number quantities, units and notes;
  - the `key: value` metadata block (`Servings`, `Link` or `Author`, `Tags`);
  - the recipe document: five blocks in a fixed order, and the canonical
    text a recipe displays as. Displaying a well-formed recipe and parsing
    the text back gives the same recipe.
- **Recipe directories** (`src/recipe/directory.rs`, `src/util.rs`):
  - titles become directory names;
  - a taken name is disambiguated as `"<name> (i)"` for the least free
    `i >= 2`;
  - a directory is stored, renamed with its files, and given images.
  - The file system is a `Disk` object holding the parent directory's
    listing: sub-directory names with the file names in each, and the files
    elsewhere that can be copied in.
  - The in-memory `UniqueNameFinder` is a class with the same numbering.
- **The site generator's bookkeeping** (`src/generator.rs`): the distinct,
  sorted tags, sorted tags per entry, index entries sorted by title, and
  collision-free output file names.
- **The application's display name** (`AppInfo::full_name`,
  `src/cli/main.rs`).
- **The page scripts** (`docs/static/js/index.js` and
  `src/templates/html/static/js/index.js`, identical in these parts):
  - the tag filter: `Tag`, `TagManager`, and the escaped tag list kept in
    the URL fragment;
  - in the documentation site's script only: Euclid's `gcd`, integer
    `Fraction`s (`reduce`, `multiply`, `toString`) and the yield counter
    that rescales fraction-valued ingredient quantities.

Modelling conventions:

- Text is `seq<char>`. Whitespace is Unicode `White_Space`, as Rust's
  `char::is_whitespace` defines it.
- Rust's fixed-width integers are ranges of `nat`:
  - `u8`, `u16` and `u32` in quantities, `usize` (64 bits) for servings;
  - checked arithmetic is an explicit bound test.
- JavaScript numbers in the fraction code are unbounded naturals.
- A `Display` implementation is the sequence of lines it writes.
- The round trips of lists, metadata and recipes are stated for texts that
  are one line each. A line break inside a title, item, section name, tag,
  author or link splits that line when the written file is read back
  (`Recipes.LineBreakInTitle` shows the title case).
- The reader's input is the sequence of lines of the text.
- Parsers return `Result` values whose error carries the source's message.
- Code that loops over mutable state is a method with loop invariants,
  proved against a function or predicate that specifies it:
  - `Reader.NextBlock`, `List::parse_sectioned`, the metadata insertion
    loop, `Recipe::parse_from`, `find_available_name`, `rename`,
    `get_distinct_tags`, `full_name`, `decodeTagNames`, `gcd`, and the
    `TagManager` and `IngredientManager` methods.
- Nondeterminism is stated as a predicate that every allowed outcome meets:
  - which leftover metadata key a `HashMap` reports;
  - the order of `read_dir`;
  - the order a `HashSet` lists its elements in.

Where the code disagrees with its own tests or with itself, the model
follows the code:

- `src/recipe/mod.rs:105,107` hands `List::format` an indentation string,
  but `src/recipe/list.rs:54` takes a width. The model displays lists at a
  width of two spaces, doubled for section items. That is what both
  readings write.
- The recipe tests at `src/recipe/mod.rs:125-205` use `Yield`, `Time` and
  `Duration` metadata that `src/recipe/metadata.rs` does not define. The
  metadata model follows `src/recipe/metadata.rs`.

## Model

| member | source | states |
|---|---|---|
| Blocks.SkipBlankShape | src/recipe/reader.rs:23 | `skip_while` drops only blank lines and keeps a suffix of the input |
| Blocks.TakeBlockShape | src/recipe/reader.rs:24 | a block is the prepared lines before the first blank line, none of them empty; that blank line is consumed and reading resumes after it |
| Blocks.NextBlockShape | src/recipe/reader.rs:17-27 | a returned block is never empty and has no empty line; with trimming on, its lines carry no outer whitespace; `None` comes exactly when no non-blank line remains, and then everything has been read (`ReadBlock` is `next_block` on the unread lines) |
| Blocks.AllBlocksConcat | src/recipe/reader.rs:19-25 | concatenating every block the reader hands out gives exactly the non-blank input lines, prepared, in input order |
| Blocks.NextBlockOf | src/recipe/reader.rs:52-70 | blank lines, then a run of non-blank lines, then a blank line or the end: the run is read as one block, and reading resumes after the blank line; with trimming off, a line of spaces counts as non-blank |
| Blocks.SkipBlankLines | src/recipe/reader.rs:23 | the `skip_while` loop stops at the first non-blank line |
| Blocks.TakeBlockLines | src/recipe/reader.rs:24-25 | the `take_while` loop collects the block and steps past the blank line that ends it |
| Blocks.TextLinesWritten | src/recipe/reader.rs:12-13 | `BufRead::lines` (`TextLines`) gives back the lines `writeln!` wrote (`WrittenText`) when no line holds a line break or ends in `'\r'` |
| Blocks.LineBreakSplits | src/recipe/reader.rs:12-13 | a written line with a line break inside reads back as two lines |
| Blocks.Reader.constructor | src/recipe/reader.rs:12-15 | a new reader has read nothing |
| Blocks.Reader.NextBlock | src/recipe/reader.rs:17-27 | returns the next block and advances past it, as `ReadBlock` specifies; `NextBlockShape` and `AllBlocksConcat` give that function's meaning |
| Lists.StripPrefix | src/recipe/list.rs:125-129 | succeeds exactly on lines starting with `"- "`; every other line fails with "list item must start with '- '" |
| Lists.ParseBasicItems | src/recipe/list.rs:71-76 | a flat list that parses holds one item per line, each parsed from the line at the same position (`ParseBasic` is `parse_basic`) |
| Lists.ParseBasicFirstError | src/recipe/list.rs:71-76 | a flat list fails with the error of its first line that is not an item or whose item does not parse |
| Lists.ParseBasicAllItems | src/recipe/list.rs:71-76 | a flat list whose every line parses as an item parses |
| Lists.ItemRun | src/recipe/list.rs:23-35 | a run of items is taken from the front of the lines, and the lines after it are returned unread |
| Lists.ItemRunItems | src/recipe/list.rs:23-35 | the items of a run are the parsed lines at the front, and the rest starts with a line that is not an item |
| Lists.SectionsFromShape | src/recipe/list.rs:78-99 | an empty section name fails; otherwise there is one section per heading line, the first named by the first line, every name non-empty, every other line an item of a section |
| Lists.ParseList | src/recipe/list.rs:105-111 | an empty list, or one whose first line starts with `"- "`, parses as a flat list; any other parses as a sectioned list |
| Lists.ParseItems | src/recipe/list.rs:23-35 | the loop over the shared line iterator reads the item run and stops at the first non-item line |
| Lists.ParseSectioned | src/recipe/list.rs:78-99 | the section loop over the shared iterator gives the sections `SectionsFromShape` describes |
| Lists.ListFromLines | src/recipe/list.rs:105-111 | the conversion gives what `ParseList` specifies |
| Lists.ParseFormatList | src/recipe/list.rs:54-67 | a well-formed list displayed without indentation parses back to the same list (`FormatList`, `FormatSection` and `FormatItems` are `format`, the section display and `format_items`; a well-formed list's texts are one line each) |
| Lists.EmptySectionedReadsAsBasic | src/recipe/list.rs:106-110 | an empty sectioned list displays as nothing and reads back as an empty flat list |
| Lists.EmptyLineFails | src/recipe/list.rs:87-89 | the list `[""]` fails with the empty section name error |
| Lists.FormatItemsTrims | src/recipe/list.rs:114-123 | indented item lines trim to the unindented `"- item"` lines |
| Lists.FormatSectionsTrims | src/recipe/list.rs:39-42 | indented section lines, with items at doubled indentation, trim to the unindented ones |
| Lists.FormatListTrims | src/recipe/list.rs:54-67 | a well-formed list displayed at any width trims, line by line, to its display at width 0 |
| Lists.FormatItemsPlain | src/recipe/list.rs:114-123 | the item lines of good items carry no line break and no final `'\r'`, so they read back from the written text as written |
| Lists.FormatSectionsPlain | src/recipe/list.rs:39-42 | the same for the lines of good sections |
| Lists.FormatListPlain | src/recipe/list.rs:54-67 | every line a well-formed list displays as, at any width, reads back from the written text as written |
| Ingredients.TryPair | src/recipe/ingredient.rs:30-42 | a decimal or fraction word gives two numbers within the type's range (the fall-through and the order of the errors are the next rows) |
| Ingredients.TryPairNotNumber | src/recipe/ingredient.rs:35-38 | a part that fails for a reason other than overflow makes the word "not of this shape", even when the other part overflows |
| Ingredients.TryPairFirstOverflow | src/recipe/ingredient.rs:35-39 | otherwise an overflowing first part gives the first part's error, whether or not the second part overflows too |
| Ingredients.TryPairSecondOverflow | src/recipe/ingredient.rs:35-40 | only a first part that fits leaves the error to an overflowing second part |
| Ingredients.DecimalOutOfRange | src/recipe/ingredient.rs:30-42 | `n.f` with `n` too large for a `u16` is "decimal integral part is out of range" whatever `f` is; with only `f` too large it is "decimal fractional part is out of range" |
| Ingredients.FractionOutOfRange | src/recipe/ingredient.rs:61-73 | `n/d` with `n` too large for a `u8` is "fraction numerator is out of range" whatever `d` is; with only `d` too large it is "fraction denominator is out of range" |
| Ingredients.DecimalNonDigitPart | src/recipe/ingredient.rs:35-38 | a decimal word with a non-digit in either part is not a decimal, whatever the other part holds, an overflowing number included |
| Ingredients.FractionNonDigitPart | src/recipe/ingredient.rs:66-69 | a fraction word with a non-digit in either part is not a fraction, whatever the other part holds, an overflowing number included |
| Ingredients.TryPairShown | src/recipe/ingredient.rs:30-42 | two numbers written around the separator read back as that pair |
| Ingredients.TryPairAbsent | src/recipe/ingredient.rs:30-42 | a word without the separator is not of the shape, so parsing falls through |
| Ingredients.TryFraction | src/recipe/ingredient.rs:61-73 | a fraction word gives a fraction (that its denominator is not checked, so `n/0` reads back, is `WordShown`) |
| Ingredients.AddInteger | src/recipe/ingredient.rs:52-59 | a mixed number folds into `whole * denom + numer` over `denom` exactly when the whole part and the result fit a `u8` |
| Ingredients.WordShown | src/recipe/ingredient.rs:85-99 | a displayed value reads back as itself under its own shape, and as "not this shape" under each shape tried before it (`TryInteger` is the `u32` attempt at ingredient.rs:14-20, `TryDecimal` the decimal one at 30-42); a fraction reads back with any denominator, `0` included, since none is checked |
| Ingredients.ParseValueShown | src/recipe/ingredient.rs:85-99 | a displayed value followed by text reads back as that value and that text, unless after an integer the next word is a fraction (`ParseValue` is the value parser) |
| Ingredients.MixedNumber | src/recipe/ingredient.rs:101-116 | an integer, a space and a fraction make one fraction: `"1 1/2"` is `3/2` (`ParseMixedNumber` is the mixed-number attempt) |
| Ingredients.MixedNumberOutOfRange | src/recipe/ingredient.rs:101-116 | a mixed number whose whole part or folded numerator does not fit a `u8` fails with the "out of range" error naming the fraction word |
| Ingredients.IntegerOutOfRange | src/recipe/ingredient.rs:14-20 | an integer word too large for a `u32` is an error, not a fall-through to the other shapes |
| Ingredients.DecimalDropsLeadingZeros | src/recipe/ingredient.rs:30-42 | the fractional digits are stored as a number, so `"0.05"` reads as `0.5` |
| Ingredients.ShowValueShape | src/recipe/ingredient.rs:126-140 | a displayed value is one word that starts and ends with a digit (`ShowValue` is `Display for QuantityValue`) |
| Ingredients.ParseQuantity | src/recipe/ingredient.rs:155-171 | a present unit is non-empty and starts with a non-blank character; a present note is non-empty and trimmed |
| Ingredients.ParseQuantityAt | src/recipe/ingredient.rs:155-171 | after the value, the text before the first `" ("` is the unit and the rest must end in `')'`; without `" ("` the rest is the unit; empty parts are absent |
| Ingredients.UnclosedNote | src/recipe/ingredient.rs:155-171 | a note that does not end in `')'` fails with "missing closing parenthesis" |
| Ingredients.ParseShowQuantity | src/recipe/ingredient.rs:142-153 | a well-formed quantity displays as text that parses back to it (`ShowQuantity` is `Display for Quantity`) |
| Ingredients.NoteWithoutUnit | src/recipe/ingredient.rs:142-171 | a note displayed without a unit reads back as the unit `"(note)"` and no note |
| Ingredients.ParseIngredientAt | src/recipe/ingredient.rs:193-216 | an ingredient splits at its first `": "` and then at its first `", "`, trimming next to each separator; an empty kind or quantity is absent |
| Ingredients.BlankName | src/recipe/ingredient.rs:193-216 | a blank name part fails with the empty ingredient name error |
| Ingredients.ShowIngredientParts | src/recipe/ingredient.rs:180-191 | an ingredient displays as its name, then `", kind"` when there is a kind, then `": quantity"` when there is a quantity |
| Ingredients.NameKindShown | src/recipe/ingredient.rs:180-191 | the displayed name and kind form one trimmed part without `':'`, and that part splits back into them |
| Ingredients.ShowIngredientTrimmed | src/recipe/ingredient.rs:180-191 | a well-formed ingredient displays as non-empty text with no outer whitespace |
| Ingredients.ParseShowIngredient | src/recipe/ingredient.rs:193-216 | a well-formed ingredient displays as text that parses back to it (`ShowIngredient` is `Display for Ingredient`, ingredient.rs:180-191; `ParseIngredient` is `parse_from_str`) |
| MetadataBlock.ParseLink | src/recipe/metadata.rs:19-32 | without `" > "` the link fails with the "missing link separator" error; a parsed name is non-empty and end-trimmed, a parsed URL non-empty and start-trimmed |
| MetadataBlock.ParseLinkPadded | src/recipe/metadata.rs:160-168 | whitespace around the separator is dropped: `"name with space  >  url with space"` reads as that name and URL |
| MetadataBlock.ParseShowLink | src/recipe/metadata.rs:13-32 | a good link displays as `"name > url"`, which parses back to it (`ShowLink` is `Display for Link`) |
| MetadataBlock.ParseMapping | src/recipe/metadata.rs:129-144 | a line without `": "` fails with the "missing key-value separator" error; a parsed key and value are non-empty |
| MetadataBlock.ParseMappingOk | src/recipe/metadata.rs:129-144 | a parsed key and value are trimmed; the key starts the trimmed line and the value ends it |
| MetadataBlock.ParseMappingPadded | src/recipe/metadata.rs:129-144 | whitespace anywhere around the key, the separator and the value does not change the mapping |
| MetadataBlock.ParseShowMapping | src/recipe/metadata.rs:129-144 | a `key: value` line of a good key and value parses back to them |
| MetadataBlock.CollectMappings | src/recipe/metadata.rs:83-92 | the insertion loop gives the map that `MapFrom` specifies, or the first failure |
| MetadataBlock.MapFromPrefixError | src/recipe/metadata.rs:85-90 | once a prefix of the lines fails, the whole block fails with that error |
| MetadataBlock.MapFromHolds | src/recipe/metadata.rs:85-90 | a map that the lines give holds the mapping of every line |
| MetadataBlock.MapFromOnly | src/recipe/metadata.rs:85-90 | a map that the lines give holds nothing else |
| MetadataBlock.MapFromSize | src/recipe/metadata.rs:85-90 | a map that the lines give has one key per line |
| MetadataBlock.DuplicateKeyFails | src/recipe/metadata.rs:87-89 | two lines with the same key make the block fail |
| MetadataBlock.SplitTags | src/recipe/metadata.rs:114-116 | splitting a tag value always gives at least one tag |
| MetadataBlock.SplitJoinedTags | src/recipe/metadata.rs:114-116 | good tags joined by `", "` split back into the same tags |
| MetadataBlock.ReadKnownKeys | src/recipe/metadata.rs:98-116 | the keys left after the known ones are removed are keys of the map, and none of them is `Servings`, `Tags` or `Link` |
| MetadataBlock.FromMap | src/recipe/metadata.rs:98-126 | the conversion returns the first error, or the metadata when no key is left over, or else an "unknown metadata key" error naming some leftover key |
| MetadataBlock.FromLines | src/recipe/metadata.rs:80-92 | the block's lines give a result allowed by `MetadataResult`: the map of the lines, then the conversion |
| MetadataBlock.MissingServings | src/recipe/metadata.rs:99-108 | without `Servings` the conversion fails with "missing metadata key 'Servings'"; an empty map fails too |
| MetadataBlock.LinkAndAuthor | src/recipe/metadata.rs:109-119 | with both `Link` and `Author` the conversion fails; when every other key is known and valid, it fails naming `Author` |
| MetadataBlock.MissingTags | src/recipe/metadata.rs:114-116 | without `Tags` the metadata has no tags |
| MetadataBlock.UnknownKeyFails | src/recipe/metadata.rs:117-119 | a key other than the four known ones makes the conversion fail |
| MetadataBlock.ShownLinesTrimmed | src/recipe/metadata.rs:67-78 | good metadata displays as at least one line, each non-empty and without outer whitespace |
| MetadataBlock.ShownMetadataPlain | src/recipe/metadata.rs:67-78 | every line good metadata displays as reads back from the written text as written |
| MetadataBlock.ShownLinesMap | src/recipe/metadata.rs:67-78 | the displayed lines of good metadata read back as its `Servings`, source and `Tags` entries (`ShowMetadata` is `Display for Metadata`) |
| MetadataBlock.ReadEntries | src/recipe/metadata.rs:98-126 | the entries of good metadata convert back to it, with no key left over |
| MetadataBlock.ParseShowMetadata | src/recipe/metadata.rs:67-92 | displaying good metadata (`ShowMetadata`) and reading the lines back gives the same metadata; good metadata's texts are one line each |
| Recipes.ParseFrom | src/recipe/mod.rs:42-65 | one trimming reader, five `next_block` calls, each block handed to its parser; the result is one that `RecipeResult` allows |
| Recipes.ReadRest | src/recipe/mod.rs:53-63 | the ingredients, instructions and notes blocks are read and parsed in that order |
| Recipes.ParsedParts | src/recipe/mod.rs:42-96 | a parsed recipe came from four present blocks, each parsed by its own parser; the title is one non-empty trimmed line; the notes are empty when the fifth block is missing |
| Recipes.RestParts | src/recipe/mod.rs:53-63 | a successful parse after the metadata found the ingredients and instructions blocks, each beginning with its headline, and parsed the notes block when present |
| Recipes.BlankInputHasNoTitle | src/recipe/mod.rs:42-48 | input with no non-blank line fails with "missing title" |
| Recipes.TitleNotAlone | src/recipe/mod.rs:67-72 | two non-blank lines at the start fail with "missing empty line after title line" |
| Recipes.FlatBlocksParse | src/recipe/mod.rs:67-96 | the title, ingredients, instructions and notes blocks of a good recipe parse back to its parts (`ParseTitle`, `ParseIngredients`, `ParseInstructions` and `ParseNotes` are mod.rs:67-96; `ParseString` is `ParseFromStr for String` at mod.rs:26-30, the item parser of instructions and notes) |
| Recipes.ShownBlocksTrim | src/recipe/mod.rs:99-114 | each displayed block is non-empty and trims, line by line, to what the parsers expect |
| Recipes.ShownRecipeBlocks | src/recipe/mod.rs:99-114 | a trimming reader hands out the displayed recipe's blocks in order; without trailing lines, the notes block is missing exactly when there are no notes |
| Recipes.ParseShowRecipe | src/recipe/mod.rs:99-114 | displaying a good recipe (`ShowRecipe`, the `Display` impl) and parsing its lines back gives the same recipe; a good recipe's texts are one line each |
| Recipes.ShownLinesPlain | src/recipe/mod.rs:99-114 | every line a good recipe displays as carries no line break and no final `'\r'` |
| Recipes.ParseWrittenRecipe | src/recipe/mod.rs:42-114 | the text `Display` writes for a good recipe, split into lines as `BufRead::lines` does and parsed, gives the same recipe |
| Recipes.LineBreakInTitle | src/recipe/mod.rs:67-72 | a title holding a line break between two non-blank lines is written as two lines, and the written text then fails with "missing empty line after title line", whatever the rest of the recipe |
| Recipes.ParseTrailing | src/recipe/mod.rs:42-65 | only five blocks are read: anything after a blank line following a recipe with notes is ignored |
| Naming.NumberedInjective | src/util.rs:34 | different numbers give different variants of a name |
| Naming.FirstFree | src/util.rs:32-39 | the probe from 2 upward ends at a variant not yet taken; it ends because only finitely many names are taken |
| Naming.FirstFreeLeast | src/util.rs:32-39 | every variant probed before the first free one is taken |
| Naming.FindName | src/util.rs:27-40 | the name handed out was not taken before, and a new name is handed out unchanged |
| Naming.FindNameNumbered | src/util.rs:32-39 | a taken name comes back numbered with the least free number from 2 on; the number 1 is never used |
| Naming.FindAllDistinct | src/util.rs:27-40 | successive requests never get the same name twice, nor a name taken beforehand |
| Naming.SecondVariant | src/util.rs:97-105 | a taken name whose variant numbered 2 is free gets that variant (`"foo (2)"`, then `"foo (2) (2)"`) |
| Naming.ThirdVariant | src/util.rs:97-105 | a taken name whose variant numbered 2 is taken too gets the one numbered 3 (`"bar"` after `"bar (2)"` and `"bar"`) |
| Naming.UniqueNameFinder.constructor | src/util.rs:15-25 | a new finder has handed out no name yet |
| Naming.UniqueNameFinder.Find | src/util.rs:27-40 | returns the name `FindName` specifies, and the recorded names grow by exactly that name |
| Naming.AppendExtParts | src/util.rs:43-52 | a name with an extension appended splits back into the name and that extension (`AppendExt` is `append_os_file_ext`; `Extension` and `Stem` are `Path::extension` and `Path::file_stem` as directory.rs:144-169 uses them) |
| Directories.BlankTitleRejected | src/recipe/directory.rs:209-215 | a title is rejected with `EmptyRecipeTitle` exactly when it is blank (`SanitizeTitle` is the trim-and-check step) |
| Directories.SanitizedTitle | src/recipe/directory.rs:209-215 | an accepted title is non-empty, has no outer whitespace, and is accepted unchanged again |
| Directories.TitleToNamePadded | src/recipe/directory.rs:217-219 | whitespace around a title does not change the directory name (`TitleToName` is `title_to_name`) |
| Directories.Disk.constructor | src/recipe/directory.rs:174-184 | the parent directory's listing is the one given |
| Directories.AvailableNameLeast | src/recipe/directory.rs:191-207 | the available name is free or is the current name, and carries the least such number from 2 on; `" (1)"` is never tried (`Free` is the set probed against: the siblings other than the current name) |
| Directories.AvailableNameAsFinder | src/recipe/directory.rs:191-207 | without a current name, a taken name is disambiguated exactly as `UniqueNameFinder` with `" ("` and `")"` does |
| Directories.FindAvailableName | src/recipe/directory.rs:191-207 | the probing loop returns the available name |
| Directories.TargetFree | src/recipe/directory.rs:129-138 | the name `update_from_title` renames to is free or is the current name |
| Directories.Create | src/recipe/directory.rs:174-184 | makes the directory under its own name when that is free, otherwise under the available name, which is then free and is returned; nothing else changes |
| Directories.Directory.constructor | src/recipe/directory.rs:250-253 | a directory is its parent path and its name |
| Directories.Directory.FromTitle | src/recipe/directory.rs:24-29 | the directory is named after the title, or the title's error is returned |
| Directories.Directory.RecipePathParts | src/recipe/directory.rs:99-101 | the recipe file's name splits back into the directory name and the extension `recipe` (`RecipePath` is `recipe_path`) |
| Directories.Directory.FilePathParts | src/recipe/directory.rs:140-142 | a file path lies directly inside the directory, whose path is the parent followed by the name; the file's name splits back into the directory name and the extension (`Path` is `path` at src/recipe/directory.rs:95-97, `FilePath` is `file_path`) |
| Directories.Directory.Store | src/recipe/directory.rs:103-114 | the directory is created under its own or the available name, which becomes its name; the new directory holds only the recipe file |
| Directories.Directory.Rename | src/recipe/directory.rs:152-171 | a missing directory fails with `NotFound` and changes nothing; otherwise the directory gets the new name and each of its files is renamed, in listing order, to `<new name>.<its ext>` |
| Directories.RenamedImage | src/recipe/directory.rs:152-171 | when the new name has no extension, the renamed directory holds exactly the new names of its files, whatever the listing order; other directories are unchanged |
| Directories.RenamedFileStem | src/recipe/directory.rs:163-169 | every renamed file has the new directory name as its stem |
| Directories.Directory.UpdateFromTitle | src/recipe/directory.rs:129-138 | a title giving the current name changes nothing; otherwise the directory is renamed to the title's name, or to the available name with the current name counted as free |
| Directories.Directory.SuffixIff | src/recipe/directory.rs:116-127 | the suffix is `s` exactly when `s` is non-empty and the name is the title's name followed by `s` (`Suffix` is `suffix`) |
| Directories.Directory.NumberedSuffix | src/recipe/directory.rs:116-127 | a directory disambiguated with number `i` has the suffix `" (i)"` |
| Directories.Directory.CopyImageFrom | src/recipe/directory.rs:53-62 | a source without an extension fails with `MissingImageFileExt`, one with a disallowed extension with `InvalidImageFileExt`; otherwise the file is copied in as `<name>.<ext>` |
| Directories.Directory.CopiedIsImage | src/recipe/directory.rs:144-150 | the file an accepted copy creates is recognised as the directory's image (`IsImagePath` is the image test) |
| Sorting.SortSorted | src/generator.rs:151-153 | sorting orders by key and permutes its input |
| Sorting.SortedSetUnique | src/generator.rs:151-153 | two sorted lists without repetitions that hold the same elements are equal |
| Sorting.SortStable | src/generator.rs:75 | sorting is stable: for every key, the elements with that key come out in the order they went in |
| Sorting.InsertWithKey | src/generator.rs:75 | inserting an element never moves it past one with the same key |
| Generator.CollectTags | src/generator.rs:142-150 | the insertion loop collects exactly the tags occurring in the entries |
| Generator.ListSet | src/generator.rs:151 | listing a set gives each of its elements exactly once |
| Generator.DistinctTags | src/generator.rs:141-154 | every tag occurring in an entry is in the result exactly once, nothing else is, and the result ascends |
| Generator.DistinctTagsUnique | src/generator.rs:141-154 | the result does not depend on the order the set listed the tags in |
| Generator.IndexEntries | src/generator.rs:102-138 | each recipe's entry has its output name from one shared `UniqueNameFinder`, the path `recipes/<name>.<ext>` and its tags sorted (`EntryFor` builds one entry; `Requests` gives the filtered titles in recipe order and `OutputNames` the names one finder hands out for them) |
| Generator.EntriesDistinct | src/generator.rs:107-126 | no two recipes are rendered to the same file, and every entry's tags are sorted |
| Generator.SameTitleTwice | src/generator.rs:252-257 | two recipes whose titles filter to the same name get that name and the name numbered 2 |
| Generator.RenderIndex | src/generator.rs:72-83 | the entries are sorted by title and are a permutation of the input; for every title, the entries with that title keep their input order; the tags are the distinct tags |
| AppInfo.Upper | src/cli/main.rs:39-41 | ASCII letters become upper case; every other character stays as it is |
| AppInfo.FullName | src/cli/main.rs:34-51 | one output character per input character: upper-cased in capitalising mode, a space for a separator otherwise, else copied |
| AppInfo.SeparatorShown | src/cli/main.rs:38-45 | a `'_'` or `'-'` becomes a space and turns capitalising on, unless capitalising is already on, in which case it is kept |
| AppInfo.NoTwoCapitals | src/cli/main.rs:38-42 | capitalising mode never lasts two characters in a row |
| AppInfo.NoSeparators | src/cli/main.rs:37-49 | a name without separators changes only in its first character, which is upper-cased |
| AppInfo.LettersKept | src/cli/main.rs:46-49 | a character that is not a separator is copied or upper-cased, and nothing else |
| TagFilter.DecodeTagNames | src/templates/html/static/js/index.js:147-168 | the decoding loop gives the set `DecodedNames` specifies (the same code is at docs/static/js/index.js:163-184) |
| TagFilter.DecodeChar | src/templates/html/static/js/index.js:152-156 | a backslash makes the next character literal |
| TagFilter.DecodeEncodeEvery | src/templates/html/static/js/index.js:147-168 | a list of non-empty names with every backslash and comma escaped decodes to those names |
| TagFilter.EncodeRoundTrip | src/templates/html/static/js/index.js:141-168 | decoding the encoded names gives the set of names when none is empty and each has at most one backslash and at most one comma (the same code is at docs/static/js/index.js:157-184; `EscapeAll` escapes each name in turn, one escaped name per name) |
| TagFilter.EscapeNameOnce | src/templates/html/static/js/index.js:141-145 | with at most one backslash and one comma, escaping only the first occurrence of each escapes them all |
| TagFilter.TwoCommasSplit | src/templates/html/static/js/index.js:141-145 | the name `",,"` encodes to `\,,` and decodes to the set `{","}`, not to itself (`EscapeName` and `EncodeTagNames` are `encodeTagNames` as written) |
| TagFilter.EncodeEveryRoundTrip | src/templates/html/static/js/index.js:141-168 | with every backslash and comma escaped, decoding the encoded names gives the set of names whenever none is empty |
| TagFilter.Tag.constructor | src/templates/html/static/js/index.js:11-14 | a new tag is switched off and has no elements |
| TagFilter.Tag.Toggle | src/templates/html/static/js/index.js:22-24 | without an argument the tag switches over; with one it is set to that value; its elements are unchanged (the same code is at docs/static/js/index.js:25-27) |
| TagFilter.CountTrue | src/templates/html/static/js/index.js:66-84 | the count of shown elements is at most the number of elements |
| TagFilter.TagManager.constructor | src/templates/html/static/js/index.js:35-38 | a new manager has no tags and no elements |
| TagFilter.TagManager.AddTagElement | src/templates/html/static/js/index.js:40-45 | a name gets a new inactive tag on first sight and keeps its tag after that; the element is appended to it; the other tags are unchanged (the same code is at docs/static/js/index.js:43-48) |
| TagFilter.TagManager.AddTaggedElement | src/templates/html/static/js/index.js:47-49 | a recipe element is added with its tag names |
| TagFilter.TagManager.Refresh | src/templates/html/static/js/index.js:66-84 | an element is shown exactly when it carries every active tag, and the count is the number shown (the same code is at docs/static/js/index.js:81-101) |
| TagFilter.TagManager.NothingActiveShowsAll | src/templates/html/static/js/index.js:66-79 | with no tag active, every element is shown and counted |
| TagFilter.TagManager.Reset | src/templates/html/static/js/index.js:86-91 | every tag is switched off; the tags keep their elements (the same code is at docs/static/js/index.js:103-108) |
| TagFilter.TagManager.UpdateFromUrlHash | src/templates/html/static/js/index.js:127-139 | a tag is active exactly when its name is in the decoded list; then an element is shown exactly when it carries every listed name that is a tag (the same code is at docs/static/js/index.js:143-155) |
| Yields.Gcd | docs/static/js/index.js:188-195 | Euclid's loop computes `GcdOf`, whose meaning the lemmas below give |
| Yields.GcdDivides | docs/static/js/index.js:188-195 | the result divides both arguments (`GcdOf` is the recursive definition of `gcd`) |
| Yields.GcdGreatest | docs/static/js/index.js:188-195 | every common divisor of the arguments divides the result |
| Yields.GcdPositive | docs/static/js/index.js:188-195 | the result is zero only when both arguments are |
| Yields.ReduceParts | docs/static/js/index.js:203-206 | the reduced numerator and denominator times the greatest common divisor are the original ones |
| Yields.ReduceSameValue | docs/static/js/index.js:203-206 | reducing keeps the value of the fraction and keeps a denominator positive (`Reduce` is `Fraction.reduce`) |
| Yields.ReduceLowest | docs/static/js/index.js:203-206 | a reduced fraction is in lowest terms |
| Yields.MultiplySameValue | docs/static/js/index.js:208-213 | multiplying fractions of equal value by the same fraction gives equal values (`Multiply` is `Fraction.multiply`) |
| Yields.ToStringEmpty | docs/static/js/index.js:219-232 | zero is shown as the empty text, and only zero is |
| Yields.ToStringWhole | docs/static/js/index.js:219-232 | a whole number shows as its digits, which read back as the quotient |
| Yields.ToStringProper | docs/static/js/index.js:219-232 | a proper fraction shows as numerator, fraction slash, denominator |
| Yields.ToStringMixed | docs/static/js/index.js:219-232 | a mixed number shows the whole part, a space and the remainder over the denominator, and those parts read back give the numerator (`ToString` is `Fraction.toString`) |
| Yields.ScaledValue | docs/static/js/index.js:272-279 | a rescaled quantity stands for the original one times `current / default`, with a positive denominator (`Scaled` is the rescaling in `refresh`) |
| Yields.IngredientManager.constructor | docs/static/js/index.js:293-299 | the counter starts at the default yield, showing every quantity as written |
| Yields.IngredientManager.Refresh | docs/static/js/index.js:314-328 | every shown quantity becomes its written one rescaled to the current yield |
| Yields.IngredientManager.Decrease | docs/static/js/index.js:302-307 | one serving less when above one, and the quantities follow; otherwise nothing changes, so the yield never drops below one |
| Yields.IngredientManager.Increase | docs/static/js/index.js:309-312 | one serving more, and the quantities follow |
| Yields.IngredientManager.Reset | docs/static/js/index.js:330-333 | back to the default yield, which shows every quantity as written |

## Left out

- Real I/O:
  - The reader takes the lines of the text. Splitting a text into lines, as `BufRead::lines` does, is `Blocks.TextLines`, and the recipe round trip is also proved through it (Recipes.ParseWrittenRecipe).
  - Read errors are left out. `take_while` ends a block at such an error without reporting it (src/recipe/reader.rs:24-25).
  - Writing through a `fmt::Formatter` is left out.
  - The file system is only the parent directory's listing. File contents are not modelled.
  - Any other kind of `io::Error` is left out: permissions, a full disk, a non-directory entry of the same name.
- `sanitize_file_name`, `slugify` and the generator's file-name filter are parameters of the model. What they compute is not part of it.
- Directories.FindAvailableName: only sibling directories count as taken. A regular file of the same name, which `Path::exists` also sees, is left out.
- Directories.Directory.Store: the recipe file is created in a directory that is new. The `create_new` failure on an existing recipe file therefore cannot occur in the model. The written recipe text is left out.
- Directories.Directory.Rename: requires the new name to be free or to be the current name. `update_from_title` establishes that, and `rename` is private to it. A rename whose target is taken is not modelled.
- Directories.Directory.CopyImageFrom: the copy source is a file name from a given set, not a path.
- Directories.Directory.Suffix: requires a title that is not blank. The source panics on a blank title with `expect("empty recipe title")`.
- Directories.RenamedImage: states the result only when the new name has no extension of its own. Otherwise files renamed onto each other can leave an order-dependent result, which `Renamed` still describes.
- Several directory operations are only file-system glue and are left out: `Directory::list_all`, `load`, `delete`, `image_file_name` and `base_name` (src/recipe/directory.rs:31-93), and `copy_dir` (src/util.rs:57-77).
- AppInfo.Upper: upper-cases ASCII letters only, where `char::to_uppercase` maps every cased letter, some of them to several characters.
- Lists.ParseList: the item parser and display are parameters, which stand for the item type's `ParseFromStr` and `Display` implementations.
- Ingredients.ParseShowQuantity: the round trip requires a unit whenever there is a note. Without a unit, `"1 (note)"` reads back with the unit `"(note)"` (Ingredients.NoteWithoutUnit).
- Template rendering, image copying and the output directories of the generator are left out (src/generator.rs:72-138 beyond the bookkeeping modelled).
- Browser-side runtime:
  - DOM access, CSS classes (`Tag.refresh`), event listeners and the URL history (`updateUrlHash`) are left out.
  - `TagManager.random` uses `Math.random` and is left out.
  - The text of the shown-recipe count is left out.
  - Page elements are opaque identities.
- Floating-point quantities of the yield counter are left out: `parseFloat`, `Math.round`, `Fraction.scaleNumber` and `Fraction.parseFrom`. The counter holds fraction-valued quantities only.
- JavaScript numbers are unbounded naturals in the fraction code. Negative numbers, `NaN` and `Infinity` do not occur.
- Yields.Reduce: requires a non-zero numerator or denominator. On `0/0` the source divides by a zero gcd and gets `NaN`.
- Yields.ToString: requires a positive denominator.
- Yields.IngredientManager.constructor: requires a positive default yield and positive denominators. The source parses the yield from the page and would otherwise compute `NaN` or `Infinity`.
- The `gcd` loop assigns to an undeclared variable `t`, which the browser makes a global; the model uses a local.

## Findings

| source | as written | input that shows it | evidently intended | confidence | as-written member | corrected member |
|---|---|---|---|---|---|---|
| docs/static/js/index.js:157-161 | `encodeTagNames` escapes each name with `replace("\\", "\\\\")` and `replace(",", "\\,")`. A string pattern replaces only the first occurrence, so a second comma or backslash is left unescaped | the tag `",,"` encodes to `\,,`, which `decodeTagNames` reads as the set `{","}` | every backslash and comma escaped, so that decoding gives back the set of tag names | high (not executed) | TagFilter.TwoCommasSplit | TagFilter.EncodeEveryRoundTrip |
| src/templates/html/static/js/index.js:141-145 | the same first-occurrence escaping in the shipped page template | the tag `",,"` encodes to `\,,` and decodes to `{","}` | every backslash and comma escaped | high (not executed) | TagFilter.TwoCommasSplit | TagFilter.EncodeEveryRoundTrip |
