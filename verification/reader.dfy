/** The block reader of the recipe format (src/recipe/reader.rs): the text is
    a sequence of lines, and each call hands out the next run of non-empty
    lines, optionally trimming every line first. */
module Blocks {
  import opened Wrappers
  import opened Strings

  /** A line as the reader sees it: trimmed when trimming is on. */
  function Prepared(line: string, trim: bool): string {
    if trim then Trim(line) else line
  }

  /** The lines that are empty once prepared. */
  predicate Blank(line: string, trim: bool) {
    Prepared(line, trim) == []
  }

  /** `skip_while`: the lines from the first non-blank one on. */
  function SkipBlank(lines: seq<string>, trim: bool): (r: seq<string>)
    ensures |r| <= |lines|
    ensures r == [] || !Blank(r[0], trim)
  {
    if lines != [] && Blank(lines[0], trim) then SkipBlank(lines[1..], trim) else lines
  }

  /** What `SkipBlank` keeps is a suffix, and what it drops is blank. */
  lemma {:induction false} SkipBlankShape(lines: seq<string>, trim: bool)
    ensures SkipBlank(lines, trim) == lines[|lines| - |SkipBlank(lines, trim)|..]
    ensures forall i :: 0 <= i < |lines| - |SkipBlank(lines, trim)| ==> Blank(lines[i], trim)
  {
    if lines != [] && Blank(lines[0], trim) {
      var r := SkipBlank(lines, trim);
      SkipBlankShape(lines[1..], trim);
      assert lines[1..][|lines| - 1 - |r|..] == lines[|lines| - |r|..];
      forall i | 0 < i < |lines| - |r|
        ensures Blank(lines[i], trim)
      {
        assert lines[i] == lines[1..][i - 1];
      }
    }
  }

  /** `take_while`: the prepared non-blank lines up to the first blank one, and
      the lines after that blank one, which `take_while` consumes. */
  function TakeBlock(lines: seq<string>, trim: bool): (r: (seq<string>, seq<string>))
    ensures |r.0| + |r.1| <= |lines|
  {
    if lines == [] then ([], [])
    else if Blank(lines[0], trim) then ([], lines[1..])
    else
      var (block, rest) := TakeBlock(lines[1..], trim);
      ([Prepared(lines[0], trim)] + block, rest)
  }

  /** The block holds the prepared lines before the first blank one, all
      non-empty, and reading resumes after that blank line. */
  lemma {:induction false} TakeBlockShape(lines: seq<string>, trim: bool)
    ensures var r := TakeBlock(lines, trim);
      && (|r.0| < |lines| ==> r.1 == lines[|r.0| + 1..] && Blank(lines[|r.0|], trim))
      && (|r.0| == |lines| ==> r.1 == [])
      && (forall i :: 0 <= i < |r.0| ==> r.0[i] == Prepared(lines[i], trim) && r.0[i] != [])
  {
    if lines != [] && !Blank(lines[0], trim) {
      TakeBlockShape(lines[1..], trim);
    }
  }

  /** `Reader::next_block` on the lines not yet read: the next block, or
      `None` when no non-blank line remains, and the lines left unread. */
  function ReadBlock(lines: seq<string>, trim: bool): (Option<seq<string>>, seq<string>) {
    var (block, rest) := TakeBlock(SkipBlank(lines, trim), trim);
    (if block == [] then None else Some(block), rest)
  }

  /** The lines of `lines` that are not blank, prepared, in input order. */
  function NonBlank(lines: seq<string>, trim: bool): seq<string> {
    if lines == [] then []
    else if Blank(lines[0], trim) then NonBlank(lines[1..], trim)
    else [Prepared(lines[0], trim)] + NonBlank(lines[1..], trim)
  }

  /** Every block the reader hands out, one call after another. */
  function AllBlocks(lines: seq<string>, trim: bool): seq<seq<string>>
    decreases |lines|
  {
    var next := ReadBlock(lines, trim);
    if next.0.None? then [] else [next.0.value] + AllBlocks(next.1, trim)
  }

  function Concat(blocks: seq<seq<string>>): seq<string> {
    if blocks == [] then [] else blocks[0] + Concat(blocks[1..])
  }

  /** A block is never empty, none of its lines is empty, and with trimming
      on every line is trimmed; `None` comes exactly when no non-blank line
      is left, and then everything has been read. */
  lemma NextBlockShape(lines: seq<string>, trim: bool)
    ensures var (block, rest) := ReadBlock(lines, trim);
      && (block.Some? ==> |block.value| > 0 && |rest| < |lines|)
      && (block.Some? ==> forall i :: 0 <= i < |block.value| ==> block.value[i] != [])
      && (block.Some? && trim ==> forall i :: 0 <= i < |block.value| ==> Trimmed(block.value[i]))
      && (block.None? <==> forall i :: 0 <= i < |lines| ==> Blank(lines[i], trim))
      && (block.None? ==> rest == [])
  {
    var skipped := SkipBlank(lines, trim);
    var (block, rest) := TakeBlock(skipped, trim);
    SkipBlankShape(lines, trim);
    TakeBlockShape(skipped, trim);
    if skipped != [] {
      assert |block| > 0;
      assert !Blank(lines[|lines| - |skipped|], trim);
    }
    if trim {
      forall i | 0 <= i < |block|
        ensures Trimmed(block[i])
      {
        TrimIsTrimmed(skipped[i]);
      }
    }
  }

  /** Skipping blank lines does not change the non-blank lines. */
  lemma {:induction false} NonBlankSkip(lines: seq<string>, trim: bool)
    ensures NonBlank(SkipBlank(lines, trim), trim) == NonBlank(lines, trim)
  {
    if lines != [] && Blank(lines[0], trim) {
      NonBlankSkip(lines[1..], trim);
    }
  }

  /** The non-blank lines are the block followed by the non-blank lines
      after it. */
  lemma {:induction false} NonBlankTake(lines: seq<string>, trim: bool)
    ensures var (block, rest) := TakeBlock(lines, trim);
      NonBlank(lines, trim) == block + NonBlank(rest, trim)
  {
    if lines != [] && !Blank(lines[0], trim) {
      NonBlankTake(lines[1..], trim);
    }
  }

  /** Reading every block and concatenating them gives exactly the non-blank
      lines of the input, prepared, in input order. */
  lemma {:induction false} AllBlocksConcat(lines: seq<string>, trim: bool)
    decreases |lines|
    ensures Concat(AllBlocks(lines, trim)) == NonBlank(lines, trim)
  {
    var skipped := SkipBlank(lines, trim);
    var taken := TakeBlock(skipped, trim);
    NonBlankSkip(lines, trim);
    NonBlankTake(skipped, trim);
    assert NonBlank(lines, trim) == taken.0 + NonBlank(taken.1, trim);
    if taken.0 == [] {
      assert skipped == [];
      assert AllBlocks(lines, trim) == [];
    } else {
      assert ReadBlock(lines, trim) == (Some(taken.0), taken.1);
      var rest := AllBlocks(taken.1, trim);
      AllBlocksConcat(taken.1, trim);
      assert AllBlocks(lines, trim) == [taken.0] + rest;
      assert ([taken.0] + rest)[1..] == rest;
      assert Concat([taken.0] + rest) == taken.0 + Concat(rest);
    }
  }

  function PrepareAll(lines: seq<string>, trim: bool): (r: seq<string>)
    ensures |r| == |lines| && forall i :: 0 <= i < |lines| ==> r[i] == Prepared(lines[i], trim)
  {
    if lines == [] then [] else [Prepared(lines[0], trim)] + PrepareAll(lines[1..], trim)
  }

  /** A run of non-blank lines after some blank ones, ended by a blank line or
      by the end of the input, is read as one block, and reading resumes after
      the blank line that ends it. */
  lemma NextBlockOf(blanks: seq<string>, block: seq<string>, tail: seq<string>, trim: bool)
    requires forall i :: 0 <= i < |blanks| ==> Blank(blanks[i], trim)
    requires block != [] && forall i :: 0 <= i < |block| ==> !Blank(block[i], trim)
    requires tail == [] || Blank(tail[0], trim)
    ensures ReadBlock(blanks + block + tail, trim)
            == (Some(PrepareAll(block, trim)), if tail == [] then [] else tail[1..])
  {
    SkipBlankPrefix(blanks, block + tail, trim);
    assert blanks + block + tail == blanks + (block + tail);
    TakeBlockOf(block, tail, trim);
  }

  lemma {:induction false} SkipBlankPrefix(blanks: seq<string>, lines: seq<string>, trim: bool)
    requires forall i :: 0 <= i < |blanks| ==> Blank(blanks[i], trim)
    requires lines != [] && !Blank(lines[0], trim)
    ensures SkipBlank(blanks + lines, trim) == lines
  {
    if blanks != [] {
      assert (blanks + lines)[1..] == blanks[1..] + lines;
      SkipBlankPrefix(blanks[1..], lines, trim);
    }
  }

  lemma {:induction false} TakeBlockOf(block: seq<string>, tail: seq<string>, trim: bool)
    requires forall i :: 0 <= i < |block| ==> !Blank(block[i], trim)
    requires tail == [] || Blank(tail[0], trim)
    ensures TakeBlock(block + tail, trim) == (PrepareAll(block, trim), if tail == [] then [] else tail[1..])
  {
    if block == [] {
      assert block + tail == tail;
    } else {
      assert (block + tail)[1..] == block[1..] + tail;
      TakeBlockOf(block[1..], tail, trim);
    }
  }

  /** The `skip_while` loop: advances past blank lines. */
  method SkipBlankLines(lines: seq<string>, from: nat, trim: bool) returns (i: nat)
    requires from <= |lines|
    ensures from <= i <= |lines| && lines[i..] == SkipBlank(lines[from..], trim)
  {
    i := from;
    while i < |lines| && Blank(lines[i], trim)
      invariant from <= i <= |lines|
      invariant SkipBlank(lines[from..], trim) == SkipBlank(lines[i..], trim)
    {
      assert lines[i..][1..] == lines[i + 1..];
      i := i + 1;
    }
  }

  /** One step of `take_while` at index `i`. */
  lemma TakeBlockStep(lines: seq<string>, i: nat, trim: bool)
    requires i < |lines|
    ensures Blank(lines[i], trim) ==> TakeBlock(lines[i..], trim) == ([], lines[i + 1..])
    ensures !Blank(lines[i], trim) ==>
              TakeBlock(lines[i..], trim).0 == [Prepared(lines[i], trim)] + TakeBlock(lines[i + 1..], trim).0
              && TakeBlock(lines[i..], trim).1 == TakeBlock(lines[i + 1..], trim).1
  {
    assert lines[i..][1..] == lines[i + 1..];
  }

  /** The `take_while` loop: collects prepared lines up to the first blank one
      and steps past that blank line. */
  method TakeBlockLines(lines: seq<string>, from: nat, trim: bool) returns (taken: seq<string>, i: nat)
    requires from <= |lines|
    ensures from <= i <= |lines| && TakeBlock(lines[from..], trim) == (taken, lines[i..])
  {
    ghost var whole := TakeBlock(lines[from..], trim);
    taken := [];
    i := from;
    var done := false;
    while !done && i < |lines|
      invariant from <= i <= |lines|
      invariant !done ==> whole.0 == taken + TakeBlock(lines[i..], trim).0
      invariant !done ==> whole.1 == TakeBlock(lines[i..], trim).1
      invariant done ==> whole.0 == taken && whole.1 == lines[i..]
      decreases |lines| - i
    {
      TakeBlockStep(lines, i, trim);
      if Blank(lines[i], trim) {
        assert taken + [] == taken;
        done := true;
      } else {
        var line := Prepared(lines[i], trim);
        AppendAssociates(taken, [line], TakeBlock(lines[i + 1..], trim).0);
        taken := taken + [line];
      }
      i := i + 1;
    }
    if !done {
      assert lines[i..] == [];
      assert taken + [] == taken;
    }
  }

  /** The reader itself: the lines of the input, whether to trim them, and the
      position of the first line not yet read. */
  class Reader {
    const lines: seq<string>
    const shouldTrim: bool
    var position: nat

    predicate Valid()
      reads this
    {
      position <= |lines|
    }

    /** The lines not yet read. */
    function Unread(): seq<string>
      reads this
      requires Valid()
    {
      lines[position..]
    }

    /** `Reader::new`: nothing read yet. */
    constructor(lines: seq<string>, shouldTrim: bool)
      ensures Valid() && this.lines == lines && this.shouldTrim == shouldTrim
      ensures Unread() == lines
    {
      this.lines := lines;
      this.shouldTrim := shouldTrim;
      position := 0;
    }

    /** `Reader::next_block`: skips blank lines, takes the following non-blank
        ones, and consumes the blank line that ends them. */
    method NextBlock() returns (block: Option<seq<string>>)
      requires Valid()
      modifies this
      ensures Valid()
      ensures (block, Unread()) == ReadBlock(old(Unread()), shouldTrim)
    {
      var i := SkipBlankLines(lines, position, shouldTrim);
      var taken, j := TakeBlockLines(lines, i, shouldTrim);
      position := j;
      block := if taken == [] then None else Some(taken);
    }
  }

  /** Two non-blank lines at the front are read into one block. */
  lemma TwoLinesOneBlock(first: string, second: string, rest: seq<string>)
    requires Trim(first) != [] && Trim(second) != []
    ensures var block := ReadBlock([first, second] + rest, true).0;
      block.Some? && |block.value| >= 2
  {
    var lines := [first, second] + rest;
    assert SkipBlank(lines, true) == lines;
    assert lines[1..] == [second] + rest;
    assert ([second] + rest)[1..] == rest;
    assert |TakeBlock(lines, true).0| >= 2;
  }

  // ---------------------------------------------------------------------
  // From text to lines

  /** `BufRead::lines`, which the reader is built on: the pieces of `text`
      between line breaks. A line break ends the line before it, so a final
      one starts no empty line, and a `'\r'` right before a line break is
      dropped with it. */
  function TextLines(text: string): seq<string>
    decreases |text|
  {
    match SplitOnce(text, "\n")
    case None => if text == [] then [] else [text]
    case Some((line, rest)) => [DropCarriageReturn(line)] + TextLines(rest)
  }

  /** `line` without a final `'\r'`. */
  function DropCarriageReturn(line: string): string {
    if line != [] && line[|line| - 1] == '\r' then line[..|line| - 1] else line
  }

  /** The text `writeln!` writes for `lines`: each one followed by a line
      break. */
  function WrittenText(lines: seq<string>): string {
    if lines == [] then [] else lines[0] + "\n" + WrittenText(lines[1..])
  }

  /** A plain line followed by a line break reads back as that line. */
  lemma TextLinesCons(line: string, rest: string)
    requires PlainLine(line)
    ensures TextLines(line + "\n" + rest) == [line] + TextLines(rest)
  {
    SplitOnceFirstChar(line, "\n", rest);
  }

  /** Reading back the text written for plain lines gives those lines. */
  lemma {:induction false} TextLinesWritten(lines: seq<string>)
    requires forall i :: 0 <= i < |lines| ==> PlainLine(lines[i])
    ensures TextLines(WrittenText(lines)) == lines
    decreases |lines|
  {
    if lines != [] {
      TextLinesCons(lines[0], WrittenText(lines[1..]));
      TextLinesWritten(lines[1..]);
    }
  }

  /** A line break inside a written line splits it: a first line
      `a + "\n" + b` reads back as the two lines `a` and `b`. */
  lemma LineBreakSplits(a: string, b: string, lines: seq<string>)
    requires lines != [] && lines[0] == a + "\n" + b && PlainLine(a) && PlainLine(b)
    ensures TextLines(WrittenText(lines)) == [a, b] + TextLines(WrittenText(lines[1..]))
  {
    var rest := WrittenText(lines[1..]);
    Regroup(a, "\n", b, rest);
    TextLinesCons(a, b + "\n" + rest);
    TextLinesCons(b, rest);
  }

  lemma Regroup(a: string, sep: string, b: string, rest: string)
    ensures (a + sep + b) + sep + rest == a + sep + (b + sep + rest)
  {
  }
}
