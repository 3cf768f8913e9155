/** The tag filter of the generated HTML pages (the `Tag` and `TagManager`
    classes of the page script, the same in the shipped template and in the
    documentation site): the tags a visitor switched on, the tag list kept
    in the URL fragment, and which recipe list elements are shown. */
module TagFilter {
  import opened Wrappers
  import opened Strings

  const BACKSLASH: char := '\\'
  const COMMA: char := ','

  // ---------------------------------------------------------------------
  // The tag list in the URL fragment

  /** `text.replace(c, replacement)` with a one-character string pattern:
      only the first occurrence of `c` is replaced. */
  function ReplaceFirst(text: string, c: char, replacement: string): string
    decreases |text|
  {
    if text == [] then []
    else if text[0] == c then replacement + text[1..]
    else [text[0]] + ReplaceFirst(text[1..], c, replacement)
  }

  /** The escaping `encodeTagNames` applies to one name: the first backslash
      doubled, then the first comma preceded by a backslash. */
  function EscapeName(name: string): string {
    ReplaceFirst(ReplaceFirst(name, BACKSLASH, [BACKSLASH, BACKSLASH]), COMMA, [BACKSLASH, COMMA])
  }

  /** Each name escaped by `escape`. */
  function EscapeAll(names: seq<string>, escape: string -> string): (r: seq<string>)
    ensures |r| == |names|
    decreases |names|
  {
    if names == [] then [] else [escape(names[0])] + EscapeAll(names[1..], escape)
  }

  /** `encodeTagNames`: the escaped names joined by commas. */
  function EncodeTagNames(names: seq<string>): string {
    Join(EscapeAll(names, EscapeName), [COMMA])
  }

  /** What the decoding loop returns when the rest of the text is `text`,
      given the names collected so far, the name being read and whether the
      previous character was an escaping backslash. */
  function DecodeFrom(text: string, tags: set<string>, current: string, escape: bool): set<string>
    decreases |text|
  {
    if text == [] then (if current != [] then tags + {current} else tags)
    else if escape then DecodeFrom(text[1..], tags, current + [text[0]], false)
    else if text[0] == BACKSLASH then DecodeFrom(text[1..], tags, current, true)
    else if text[0] == COMMA then DecodeFrom(text[1..], tags + {current}, [], false)
    else DecodeFrom(text[1..], tags, current + [text[0]], false)
  }

  /** The set of names `decodeTagNames` reads from `text`. */
  function DecodedNames(text: string): set<string> {
    DecodeFrom(text, {}, [], false)
  }

  /** `decodeTagNames`: a backslash makes the next character literal, an
      unescaped comma ends a name (an empty one too), and the name after the
      last comma counts only when it is not empty. */
  method DecodeTagNames(text: string) returns (tags: set<string>)
    ensures tags == DecodedNames(text)
  {
    tags := {};
    var escape := false;
    var current := "";
    for i := 0 to |text|
      invariant DecodeFrom(text[i..], tags, current, escape) == DecodedNames(text)
    {
      var c := text[i];
      assert text[i..][1..] == text[i + 1..];
      if escape {
        current := current + [c];
        escape := false;
      } else if c == BACKSLASH {
        escape := true;
      } else if c == COMMA {
        tags := tags + {current};
        current := "";
      } else {
        current := current + [c];
      }
    }
    assert text[|text|..] == [];
    if current != "" {
      tags := tags + {current};
    }
  }

  /** The names listed in `names`. */
  function Names(names: seq<string>): set<string> {
    set n | n in names
  }

  /** A character as the fully escaping encoder writes it: a backslash
      and a comma are preceded by a backslash. */
  function EscapeChar(c: char): string {
    if c == BACKSLASH || c == COMMA then [BACKSLASH, c] else [c]
  }

  /** An escaped character reads as that character. */
  lemma DecodeChar(c: char, rest: string, tags: set<string>, current: string)
    ensures DecodeFrom(EscapeChar(c) + rest, tags, current, false) == DecodeFrom(rest, tags, current + [c], false)
  {
    if c == BACKSLASH || c == COMMA {
      assert ([BACKSLASH, c] + rest)[1..] == [c] + rest;
    }
    assert ([c] + rest)[1..] == rest;
  }

  /** An unescaped comma ends the current name. */
  lemma DecodeComma(rest: string, tags: set<string>, current: string)
    ensures DecodeFrom([COMMA] + rest, tags, current, false) == DecodeFrom(rest, tags + {current}, [], false)
  {
    assert ([COMMA] + rest)[1..] == rest;
  }

  /** The occurrences of `c` in `s`. */
  function Count(c: char, s: string): nat
    decreases |s|
  {
    if s == [] then 0 else (if s[0] == c then 1 else 0) + Count(c, s[1..])
  }

  /** The escaping that the decoder undoes for every name: each backslash
      and each comma preceded by a backslash. */
  function EscapeEvery(name: string): (r: string)
    decreases |name|
  {
    if name == [] then [] else EscapeChar(name[0]) + EscapeEvery(name[1..])
  }

  /** A fully escaped name reads back as the name. */
  lemma {:induction false} DecodeEscapeEvery(name: string, rest: string, tags: set<string>, current: string)
    ensures DecodeFrom(EscapeEvery(name) + rest, tags, current, false) == DecodeFrom(rest, tags, current + name, false)
    decreases |name|
  {
    if name == [] {
      assert current + name == current && EscapeEvery(name) + rest == rest;
    } else {
      var c, tail := name[0], name[1..];
      assert name == [c] + tail;
      DecodeEscapeEvery(tail, rest, tags, current + [c]);
      DecodeEscapeStep(c, tail, rest, tags, current);
    }
  }

  /** One step of `DecodeEscapeEvery`: the escaped first character, then
      the rest of the name. */
  lemma DecodeEscapeStep(c: char, tail: string, rest: string, tags: set<string>, current: string)
    requires DecodeFrom(EscapeEvery(tail) + rest, tags, current + [c], false) == DecodeFrom(rest, tags, current + [c] + tail, false)
    ensures DecodeFrom(EscapeEvery([c] + tail) + rest, tags, current, false) == DecodeFrom(rest, tags, current + ([c] + tail), false)
  {
    EscapeEveryConsRest(c, tail, rest);
    DecodeChar(c, EscapeEvery(tail) + rest, tags, current);
    AppendAssociates(current, [c], tail);
  }

  lemma EscapeEveryConsRest(c: char, tail: string, rest: string)
    ensures EscapeEvery([c] + tail) + rest == EscapeChar(c) + (EscapeEvery(tail) + rest)
  {
    EscapeEveryCons(c, tail);
  }

  /** The encoder with every backslash and comma escaped. */
  function EncodeEvery(names: seq<string>): string {
    Join(EscapeAll(names, EscapeEvery), [COMMA])
  }

  /** Decoding the fully escaped list gives back the set of names, when no
      name is empty. */
  lemma {:induction false} DecodeEncodeEvery(names: seq<string>, tags: set<string>)
    requires forall i :: 0 <= i < |names| ==> names[i] != []
    ensures DecodeFrom(EncodeEvery(names), tags, [], false) == tags + Names(names)
    decreases |names|
  {
    if |names| == 1 {
      calc {
        DecodeFrom(EncodeEvery(names), tags, [], false);
        { assert EncodeEvery(names) == EscapeEvery(names[0]) + []; }
        DecodeFrom(EscapeEvery(names[0]) + [], tags, [], false);
        { DecodeEscapeEvery(names[0], [], tags, []); assert [] + names[0] == names[0]; }
        DecodeFrom([], tags, names[0], false);
        { assert Names(names) == {names[0]}; }
        tags + Names(names);
      }
    } else if |names| > 1 {
      var rest := EncodeEvery(names[1..]);
      calc {
        DecodeFrom(EncodeEvery(names), tags, [], false);
        { EncodeEveryCons(names); }
        DecodeFrom(EscapeEvery(names[0]) + ([COMMA] + rest), tags, [], false);
        { DecodeEscapeEvery(names[0], [COMMA] + rest, tags, []); assert [] + names[0] == names[0]; }
        DecodeFrom([COMMA] + rest, tags, names[0], false);
        { DecodeComma(rest, tags, names[0]); }
        DecodeFrom(rest, tags + {names[0]}, [], false);
        { DecodeEncodeEvery(names[1..], tags + {names[0]}); }
        tags + {names[0]} + Names(names[1..]);
        { NamesCons(names); }
        tags + Names(names);
      }
    } else {
      assert Names(names) == {};
    }
  }

  /** The fully escaped list of two names or more: the first name escaped,
      a comma, the rest. */
  lemma EncodeEveryCons(names: seq<string>)
    requires |names| > 1
    ensures EncodeEvery(names) == EscapeEvery(names[0]) + ([COMMA] + EncodeEvery(names[1..]))
  {
    var escaped := EscapeAll(names, EscapeEvery);
    assert escaped[1..] == EscapeAll(names[1..], EscapeEvery);
  }

  lemma NamesCons(names: seq<string>)
    requires names != []
    ensures Names(names) == {names[0]} + Names(names[1..])
  {
    assert names == [names[0]] + names[1..];
  }

  /** `decodeTagNames(encodeTagNames(names))` with every backslash and comma
      escaped is the set of the names, when none is empty. */
  lemma EncodeEveryRoundTrip(names: seq<string>)
    requires forall i :: 0 <= i < |names| ==> names[i] != []
    ensures DecodedNames(EncodeEvery(names)) == Names(names)
  {
    DecodeEncodeEvery(names, {});
  }

  lemma {:induction false} ReplaceFirstAbsent(s: string, c: char, replacement: string)
    requires Count(c, s) == 0
    ensures ReplaceFirst(s, c, replacement) == s
    decreases |s|
  {
    if s != [] {
      ReplaceFirstAbsent(s[1..], c, replacement);
    }
  }

  /** A name without backslashes and commas is its own escaped form. */
  lemma {:induction false} EscapeEveryPlain(s: string)
    requires Count(BACKSLASH, s) == 0 && Count(COMMA, s) == 0
    ensures EscapeEvery(s) == s
    decreases |s|
  {
    if s != [] {
      EscapeEveryPlain(s[1..]);
    }
  }

  /** A first character other than `c` is kept in front. */
  lemma ReplaceFirstSkip(x: char, s: string, c: char, replacement: string)
    requires x != c
    ensures ReplaceFirst([x] + s, c, replacement) == [x] + ReplaceFirst(s, c, replacement)
  {
    assert ([x] + s)[1..] == s;
  }

  /** Without backslashes, replacing the first comma escapes every comma
      when there is at most one. */
  lemma {:induction false} EscapeCommaOnce(s: string)
    requires Count(BACKSLASH, s) == 0 && Count(COMMA, s) <= 1
    ensures ReplaceFirst(s, COMMA, [BACKSLASH, COMMA]) == EscapeEvery(s)
    decreases |s|
  {
    if s != [] {
      if s[0] == COMMA {
        EscapeEveryPlain(s[1..]);
      } else {
        EscapeCommaOnce(s[1..]);
      }
    }
  }

  /** Without commas, replacing the first backslash escapes every backslash
      when there is at most one. */
  lemma {:induction false} EscapeBackslashOnce(s: string)
    requires Count(COMMA, s) == 0 && Count(BACKSLASH, s) <= 1
    ensures ReplaceFirst(s, BACKSLASH, [BACKSLASH, BACKSLASH]) == EscapeEvery(s)
    decreases |s|
  {
    if s != [] {
      if s[0] == BACKSLASH {
        EscapeEveryPlain(s[1..]);
      } else {
        EscapeBackslashOnce(s[1..]);
      }
    }
  }

  /** With at most one backslash and at most one comma, the first-occurrence
      escaping of `encodeTagNames` escapes everything. */
  lemma {:induction false} EscapeNameOnce(name: string)
    requires Count(BACKSLASH, name) <= 1 && Count(COMMA, name) <= 1
    ensures EscapeName(name) == EscapeEvery(name)
    decreases |name|
  {
    if name != [] {
      var c, tail := name[0], name[1..];
      assert name == [c] + tail;
      if c == BACKSLASH {
        EscapeNameBackslash(tail);
      } else if c == COMMA {
        EscapeNameComma(tail);
      } else {
        EscapeNameOnce(tail);
        EscapeNameOther(c, tail);
      }
    }
  }

  /** The first-occurrence escaping of a name starting with its only
      backslash. */
  lemma EscapeNameBackslash(tail: string)
    requires Count(BACKSLASH, tail) == 0 && Count(COMMA, tail) <= 1
    ensures EscapeName([BACKSLASH] + tail) == EscapeEvery([BACKSLASH] + tail)
  {
    ReplaceFirstAbsent(tail, BACKSLASH, [BACKSLASH, BACKSLASH]);
    DoubleThenReplace(BACKSLASH, tail, COMMA, [BACKSLASH, COMMA]);
    EscapeCommaOnce(tail);
    EscapeEveryCons(BACKSLASH, tail);
  }

  /** Doubling a leading `x`, then replacing the first `y`, leaves both
      copies of `x` in front. */
  lemma DoubleThenReplace(x: char, tail: string, y: char, replacement: string)
    requires x != y
    ensures ReplaceFirst(ReplaceFirst([x] + tail, x, [x, x]), y, replacement) == [x, x] + ReplaceFirst(tail, y, replacement)
  {
    assert ([x] + tail)[1..] == tail;
    assert [x, x] + tail == [x] + ([x] + tail);
    ReplaceFirstSkip(x, [x] + tail, y, replacement);
    ReplaceFirstSkip(x, tail, y, replacement);
  }

  lemma EscapeEveryCons(c: char, tail: string)
    ensures EscapeEvery([c] + tail) == EscapeChar(c) + EscapeEvery(tail)
  {
    assert ([c] + tail)[1..] == tail;
  }

  /** The first-occurrence escaping of a name starting with its only
      comma. */
  lemma EscapeNameComma(tail: string)
    requires Count(COMMA, tail) == 0 && Count(BACKSLASH, tail) <= 1
    ensures EscapeName([COMMA] + tail) == EscapeEvery([COMMA] + tail)
  {
    var name := [COMMA] + tail;
    assert name[1..] == tail;
    EscapeBackslashOnce(tail);
    var first := ReplaceFirst(tail, BACKSLASH, [BACKSLASH, BACKSLASH]);
    ReplaceFirstSkip(COMMA, tail, BACKSLASH, [BACKSLASH, BACKSLASH]);
    assert ([COMMA] + first)[1..] == first;
  }

  /** A first character that needs no escaping is kept in front. */
  lemma EscapeNameOther(c: char, tail: string)
    requires c != BACKSLASH && c != COMMA && EscapeName(tail) == EscapeEvery(tail)
    ensures EscapeName([c] + tail) == EscapeEvery([c] + tail)
  {
    assert ([c] + tail)[1..] == tail;
    var first := ReplaceFirst(tail, BACKSLASH, [BACKSLASH, BACKSLASH]);
    ReplaceFirstSkip(c, tail, BACKSLASH, [BACKSLASH, BACKSLASH]);
    ReplaceFirstSkip(c, first, COMMA, [BACKSLASH, COMMA]);
  }

  /** Both encoders agree on a list of names each holding at most one
      backslash and at most one comma. */
  lemma {:induction false} EscapeAllOnce(names: seq<string>)
    requires forall i :: 0 <= i < |names| ==> Count(BACKSLASH, names[i]) <= 1 && Count(COMMA, names[i]) <= 1
    ensures EscapeAll(names, EscapeName) == EscapeAll(names, EscapeEvery)
    decreases |names|
  {
    if names != [] {
      EscapeNameOnce(names[0]);
      EscapeAllOnce(names[1..]);
    }
  }

  /** `decodeTagNames(encodeTagNames(names))` is the set of the names when
      none is empty and each holds at most one backslash and at most one
      comma. */
  lemma EncodeRoundTrip(names: seq<string>)
    requires forall i :: 0 <= i < |names| ==> names[i] != []
    requires forall i :: 0 <= i < |names| ==> Count(BACKSLASH, names[i]) <= 1 && Count(COMMA, names[i]) <= 1
    ensures DecodedNames(EncodeTagNames(names)) == Names(names)
  {
    EscapeAllOnce(names);
    EncodeEveryRoundTrip(names);
  }

  /** A tag named by two commas does not survive the URL fragment: the
      second comma is left unescaped and splits the name. */
  lemma TwoCommasSplit()
    ensures EncodeTagNames([[COMMA, COMMA]]) == [BACKSLASH, COMMA, COMMA]
    ensures DecodedNames(EncodeTagNames([[COMMA, COMMA]])) == {[COMMA]}
    ensures DecodedNames(EncodeTagNames([[COMMA, COMMA]])) != Names([[COMMA, COMMA]])
  {
    var name := [COMMA, COMMA];
    assert name[1..] == [COMMA] && [COMMA][1..] == [];
    assert Count(BACKSLASH, []) == 0;
    assert Count(BACKSLASH, [COMMA]) == 0;
    assert Count(BACKSLASH, name) == 0;
    ReplaceFirstAbsent(name, BACKSLASH, [BACKSLASH, BACKSLASH]);
    assert EscapeName(name) == [BACKSLASH, COMMA, COMMA];
    assert EscapeAll([name], EscapeName) == [[BACKSLASH, COMMA, COMMA]];
    assert [BACKSLASH, COMMA, COMMA] == EscapeChar(COMMA) + [COMMA];
    DecodeChar(COMMA, [COMMA], {}, []);
    DecodeComma([], {}, [COMMA]);
    assert [] + [COMMA] == [COMMA];
    assert [COMMA] in Names([name]) ==> [COMMA] == name;
  }

  // ---------------------------------------------------------------------
  // Tags and the tag manager

  /** A page element: an opaque identity. */
  type Element = nat

  /** A tag of the filter: whether it is switched on and its elements on
      the page. */
  class Tag {
    var isActive: bool
    var elements: seq<Element>

    constructor()
      ensures !isActive && elements == []
    {
      isActive := false;
      elements := [];
    }

    /** `toggle(force)`: switch the tag over, or on or off as `force`
        says. */
    method Toggle(force: Option<bool>)
      modifies this
      ensures isActive == if force.Some? then force.value else !old(isActive)
      ensures elements == old(elements)
    {
      isActive := if force.None? then !isActive else force.value;
    }
  }

  /** The number of `true` entries of `flags`. */
  function CountTrue(flags: seq<bool>): (n: nat)
    ensures n <= |flags|
    decreases |flags|
  {
    if flags == [] then 0 else CountTrue(flags[..|flags| - 1]) + if flags[|flags| - 1] then 1 else 0
  }

  /** All entries `true` count as many as there are. */
  lemma {:induction false} CountAllTrue(flags: seq<bool>)
    requires forall i :: 0 <= i < |flags| ==> flags[i]
    ensures CountTrue(flags) == |flags|
    decreases |flags|
  {
    if flags != [] {
      CountAllTrue(flags[..|flags| - 1]);
    }
  }

  /** The tag manager: a tag per name, the tag names of each recipe element
      of the list, and the outcome of the last refresh (which recipe
      elements are shown, and how many). */
  class TagManager {
    var tags: map<string, Tag>
    var tagged: seq<set<string>>
    var shown: seq<bool>
    var count: nat

    /** Each name has its own tag object. */
    ghost predicate Valid()
      reads this
    {
      forall a, b :: a in tags && b in tags && a != b ==> tags[a] != tags[b]
    }

    /** The names of the tags switched on. */
    function ActiveNames(): set<string>
      reads this, tags.Values
    {
      set n | n in tags && tags[n].isActive
    }

    constructor()
      ensures Valid() && tags == map[] && tagged == [] && shown == [] && count == 0
    {
      tags := map[];
      tagged := [];
      shown := [];
      count := 0;
    }

    /** `addTagElement`: create the tag on first sight of its name, then add
        the element to it. */
    method AddTagElement(name: string, element: Element)
      requires Valid()
      modifies this, tags.Values
      ensures Valid()
      ensures tags.Keys == old(tags).Keys + {name}
      ensures name in old(tags) ==> tags[name] == old(tags)[name] && tags[name].isActive == old(tags[name].isActive)
      ensures name !in old(tags) ==> fresh(tags[name]) && !tags[name].isActive
      ensures tags[name].elements == (if name in old(tags) then old(tags[name].elements) else []) + [element]
      ensures forall n :: n in old(tags) && n != name ==>
        tags[n] == old(tags)[n] && tags[n].isActive == old(tags[n].isActive) && tags[n].elements == old(tags[n].elements)
      ensures tagged == old(tagged) && shown == old(shown) && count == old(count)
    {
      if name !in tags {
        var tag := new Tag();
        tags := tags[name := tag];
      }
      var tag := tags[name];
      tag.elements := tag.elements + [element];
    }

    /** `addTaggedElement`: a recipe element carrying the tag names
        `names`. */
    method AddTaggedElement(names: set<string>)
      modifies this
      ensures tagged == old(tagged) + [names]
      ensures tags == old(tags) && shown == old(shown) && count == old(count)
    {
      tagged := tagged + [names];
    }

    /** `refresh`: a recipe element is shown exactly when it carries every
        tag switched on; the count is the number of elements shown. */
    method Refresh()
      modifies this
      ensures tags == old(tags) && tagged == old(tagged)
      ensures |shown| == |tagged|
      ensures forall i :: 0 <= i < |tagged| ==> (shown[i] <==> ActiveNames() <= tagged[i])
      ensures count == CountTrue(shown)
    {
      var active := ActiveNames();
      shown := [];
      count := 0;
      for i := 0 to |tagged|
        invariant tags == old(tags) && tagged == old(tagged)
        invariant |shown| == i && count == CountTrue(shown)
        invariant forall k :: 0 <= k < i ==> (shown[k] <==> active <= tagged[k])
      {
        var show := active <= tagged[i];
        assert (shown + [show])[..i] == shown;
        shown := shown + [show];
        if show {
          count := count + 1;
        }
      }
    }

    /** With no tag switched on, every recipe element is shown. */
    lemma NothingActiveShowsAll()
      requires ActiveNames() == {} && |shown| == |tagged|
      requires forall i :: 0 <= i < |tagged| ==> (shown[i] <==> ActiveNames() <= tagged[i])
      ensures CountTrue(shown) == |tagged|
    {
      CountAllTrue(shown);
    }

    /** `reset`: switch every tag off, in the order of the map. */
    method Reset()
      requires Valid()
      modifies tags.Values
      ensures ActiveNames() == {}
      ensures forall n :: n in tags ==> tags[n].elements == old(tags[n].elements)
    {
      var rest := tags.Keys;
      while rest != {}
        invariant rest <= tags.Keys
        invariant forall n :: n in tags && n !in rest ==> !tags[n].isActive
        invariant forall n :: n in tags ==> tags[n].elements == old(tags[n].elements)
        decreases |rest|
      {
        var n :| n in rest;
        tags[n].Toggle(Some(false));
        rest := rest - {n};
      }
    }

    /** `updateFromUrlHash`: switch each tag on exactly when its name is in
        the decoded tag list `text`, then refresh. */
    method UpdateFromUrlHash(text: string)
      requires Valid()
      modifies this, tags.Values
      ensures tags == old(tags) && tagged == old(tagged)
      ensures forall n :: n in tags ==> (tags[n].isActive <==> n in DecodedNames(text))
      ensures forall n :: n in tags ==> tags[n].elements == old(tags[n].elements)
      ensures |shown| == |tagged|
      ensures forall i :: 0 <= i < |tagged| ==> (shown[i] <==> DecodedNames(text) * tags.Keys <= tagged[i])
      ensures count == CountTrue(shown)
    {
      var names := DecodeTagNames(text);
      var rest := tags.Keys;
      while rest != {}
        invariant tags == old(tags) && tagged == old(tagged)
        invariant rest <= tags.Keys
        invariant forall n :: n in tags && n !in rest ==> (tags[n].isActive <==> n in names)
        invariant forall n :: n in tags ==> tags[n].elements == old(tags[n].elements)
        decreases |rest|
      {
        var n :| n in rest;
        var tag := tags[n];
        var activate := n in names;
        if activate != tag.isActive {
          tag.Toggle(Some(activate));
        }
        rest := rest - {n};
      }
      assert ActiveNames() == names * tags.Keys;
      Refresh();
    }
  }
}
