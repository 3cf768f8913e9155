/** Unique names (src/util.rs): the in-memory `UniqueNameFinder`, which hands
    out a name unchanged the first time and numbered variants after that, the
    numbering it shares with the recipe directories, and file extensions. */
module Naming {
  import opened Wrappers
  import opened Numerals

  /** `format!("{}{}{}{}", name, prefix, i, suffix)`: the numbered variant of
      `name`. */
  function Numbered(name: string, prefix: string, suffix: string, i: nat): string {
    name + prefix + NatToString(i) + suffix
  }

  /** Different numbers give different variants. */
  lemma NumberedInjective(name: string, prefix: string, suffix: string, i: nat, j: nat)
    requires Numbered(name, prefix, suffix, i) == Numbered(name, prefix, suffix, j)
    ensures i == j
  {
    var a, b := NatToString(i), NatToString(j);
    var head := name + prefix;
    var s := Numbered(name, prefix, suffix, i);
    assert |a| == |b|;
    assert a == s[|head|..|head| + |a|];
    assert b == s[|head|..|head| + |b|];
    NatToStringInjective(i, j);
  }

  /** The variants numbered 2 up to, not including, `i`. */
  ghost function Tried(name: string, prefix: string, suffix: string, i: nat): set<string> {
    set j | 2 <= j < i :: Numbered(name, prefix, suffix, j)
  }

  lemma TriedStep(name: string, prefix: string, suffix: string, i: nat)
    requires 2 <= i
    ensures Tried(name, prefix, suffix, i + 1) == Tried(name, prefix, suffix, i) + {Numbered(name, prefix, suffix, i)}
    ensures Numbered(name, prefix, suffix, i) !in Tried(name, prefix, suffix, i)
  {
    var c := Numbered(name, prefix, suffix, i);
    if c in Tried(name, prefix, suffix, i) {
      var j :| 2 <= j < i && c == Numbered(name, prefix, suffix, j);
      NumberedInjective(name, prefix, suffix, i, j);
    }
  }

  /** The least number from `i` on whose variant is not taken, given that
      the variants below `i` are: the probe `i = 2, 3, ...` ends because only
      finitely many names are taken. */
  function FirstFree(taken: set<string>, name: string, prefix: string, suffix: string, i: nat): (r: nat)
    requires 2 <= i && Tried(name, prefix, suffix, i) <= taken
    ensures i <= r && Numbered(name, prefix, suffix, r) !in taken
    decreases taken - Tried(name, prefix, suffix, i)
  {
    TriedStep(name, prefix, suffix, i);
    if Numbered(name, prefix, suffix, i) !in taken then i
    else FirstFree(taken, name, prefix, suffix, i + 1)
  }

  /** Every variant numbered from `i` up to the first free one is taken. */
  lemma {:induction false} FirstFreeLeast(taken: set<string>, name: string, prefix: string, suffix: string, i: nat)
    requires 2 <= i && Tried(name, prefix, suffix, i) <= taken
    ensures forall j :: i <= j < FirstFree(taken, name, prefix, suffix, i) ==> Numbered(name, prefix, suffix, j) in taken
    decreases taken - Tried(name, prefix, suffix, i)
  {
    TriedStep(name, prefix, suffix, i);
    if Numbered(name, prefix, suffix, i) in taken {
      FirstFreeLeast(taken, name, prefix, suffix, i + 1);
    }
  }

  /** Any free variant numbered `k >= i` bounds the first free one. */
  lemma FirstFreeAtMost(taken: set<string>, name: string, prefix: string, suffix: string, i: nat, k: nat)
    requires 2 <= i <= k && Tried(name, prefix, suffix, i) <= taken
    requires Numbered(name, prefix, suffix, k) !in taken
    ensures FirstFree(taken, name, prefix, suffix, i) <= k
  {
    FirstFreeLeast(taken, name, prefix, suffix, i);
  }

  /** What `UniqueNameFinder::find` returns when `taken` holds the names
      handed out so far: the name itself when it is new, otherwise its
      variant with the least free number from 2 on. */
  function FindName(taken: set<string>, name: string, prefix: string, suffix: string): (r: string)
    ensures r !in taken
    ensures name !in taken ==> r == name
  {
    if name !in taken then name
    else
      assert Tried(name, prefix, suffix, 2) == {};
      Numbered(name, prefix, suffix, FirstFree(taken, name, prefix, suffix, 2))
  }

  /** A taken name comes back numbered with the least number from 2 on
      whose variant is free; the number 1 is never used. */
  lemma FindNameNumbered(taken: set<string>, name: string, prefix: string, suffix: string)
    requires name in taken
    ensures exists i :: && 2 <= i
                        && FindName(taken, name, prefix, suffix) == Numbered(name, prefix, suffix, i)
                        && forall j :: 2 <= j < i ==> Numbered(name, prefix, suffix, j) in taken
  {
    assert Tried(name, prefix, suffix, 2) == {};
    var i := FirstFree(taken, name, prefix, suffix, 2);
    FirstFreeLeast(taken, name, prefix, suffix, 2);
    assert FindName(taken, name, prefix, suffix) == Numbered(name, prefix, suffix, i);
  }

  /** The names handed out for successive requests, starting from `taken`. */
  function FindAll(taken: set<string>, requests: seq<string>, prefix: string, suffix: string): seq<string>
    decreases |requests|
  {
    if requests == [] then []
    else
      var r := FindName(taken, requests[0], prefix, suffix);
      [r] + FindAll(taken + {r}, requests[1..], prefix, suffix)
  }

  /** No name is handed out twice, and none that was already taken. */
  lemma {:induction false} FindAllDistinct(taken: set<string>, requests: seq<string>, prefix: string, suffix: string)
    ensures var rs := FindAll(taken, requests, prefix, suffix);
      && |rs| == |requests|
      && (forall i :: 0 <= i < |rs| ==> rs[i] !in taken)
      && (forall i, j :: 0 <= i < j < |rs| ==> rs[i] != rs[j])
    decreases |requests|
  {
    if requests != [] {
      var r := FindName(taken, requests[0], prefix, suffix);
      var rest := FindAll(taken + {r}, requests[1..], prefix, suffix);
      FindAllDistinct(taken + {r}, requests[1..], prefix, suffix);
      var rs := FindAll(taken, requests, prefix, suffix);
      assert rs == [r] + rest;
      forall i | 0 <= i < |rs|
        ensures rs[i] !in taken && (i > 0 ==> rs[i] != r)
      {
        if i > 0 {
          assert rs[i] == rest[i - 1];
        }
      }
    }
  }

  /** A first free number, found directly. */
  lemma FirstFreeIs(taken: set<string>, name: string, prefix: string, suffix: string, k: nat)
    requires 2 <= k && Tried(name, prefix, suffix, k) <= taken
    requires Numbered(name, prefix, suffix, k) !in taken
    ensures FirstFree(taken, name, prefix, suffix, k) == k
  {
  }

  /** A taken name whose variant numbered 2 is free gets that variant. */
  lemma SecondVariant(taken: set<string>, name: string, prefix: string, suffix: string)
    requires name in taken && Numbered(name, prefix, suffix, 2) !in taken
    ensures FindName(taken, name, prefix, suffix) == Numbered(name, prefix, suffix, 2)
  {
    assert Tried(name, prefix, suffix, 2) == {};
    FirstFreeIs(taken, name, prefix, suffix, 2);
  }

  /** A taken name whose variant numbered 2 is taken too and whose variant
      numbered 3 is free gets the latter. */
  lemma ThirdVariant(taken: set<string>, name: string, prefix: string, suffix: string)
    requires name in taken && Numbered(name, prefix, suffix, 2) in taken
    requires Numbered(name, prefix, suffix, 3) !in taken
    ensures FindName(taken, name, prefix, suffix) == Numbered(name, prefix, suffix, 3)
  {
    assert Tried(name, prefix, suffix, 2) == {};
    TriedStep(name, prefix, suffix, 2);
    FirstFreeIs(taken, name, prefix, suffix, 3);
  }

  /** The finder of src/util.rs: the names handed out so far, and the text
      around the number of a variant. */
  class UniqueNameFinder {
    var names: set<string>
    const numberPrefix: string
    const numberSuffix: string

    /** `UniqueNameFinder::new`: nothing handed out yet. */
    constructor(numberPrefix: string, numberSuffix: string)
      ensures names == {} && this.numberPrefix == numberPrefix && this.numberSuffix == numberSuffix
    {
      names := {};
      this.numberPrefix := numberPrefix;
      this.numberSuffix := numberSuffix;
    }

    /** `UniqueNameFinder::find`: the name when it is new, else the first
        free numbered variant, probing 2, 3, ...; the result is recorded. */
    method Find(name: string) returns (r: string)
      modifies this
      ensures r == FindName(old(names), name, numberPrefix, numberSuffix)
      ensures names == old(names) + {r}
    {
      var taken := names;
      if name !in taken {
        names := taken + {name};
        return name;
      }
      var i := 2;
      assert Tried(name, numberPrefix, numberSuffix, 2) == {};
      while Numbered(name, numberPrefix, numberSuffix, i) in taken
        invariant 2 <= i && Tried(name, numberPrefix, numberSuffix, i) <= taken
        invariant FirstFree(taken, name, numberPrefix, numberSuffix, i) == FirstFree(taken, name, numberPrefix, numberSuffix, 2)
        decreases taken - Tried(name, numberPrefix, numberSuffix, i)
      {
        TriedStep(name, numberPrefix, numberSuffix, i);
        i := i + 1;
      }
      r := Numbered(name, numberPrefix, numberSuffix, i);
      names := taken + {r};
    }
  }

  // ---------------------------------------------------------------------
  // File extensions

  /** `append_os_file_ext`: the path, a dot, and the extension. */
  function AppendExt(path: string, ext: string): string {
    path + "." + ext
  }

  /** The index of the last `'.'` in `s`, if any. */
  function LastDot(s: string): (r: Option<nat>)
    ensures r.Some? ==> r.value < |s| && s[r.value] == '.' && '.' !in s[r.value + 1..]
    ensures r.None? ==> '.' !in s
  {
    if s == [] then None
    else if s[|s| - 1] == '.' then Some(|s| - 1)
    else
      var r := LastDot(s[..|s| - 1]);
      assert s == s[..|s| - 1] + [s[|s| - 1]];
      r
  }

  /** The name `".."`, which has no extension. */
  predicate IsDotDot(file: string) {
    |file| == 2 && file[0] == '.' && file[1] == '.'
  }

  /** `Path::extension` of a file name: the text after the last dot, when
      that dot is not the first character and the name is not `".."`. */
  function Extension(file: string): Option<string> {
    var dot := LastDot(file);
    if dot.None? || dot.value == 0 || IsDotDot(file) then None else Some(file[dot.value + 1..])
  }

  /** `Path::file_stem` of a file name: the text before the extension's dot,
      or the whole name when there is no extension. */
  function Stem(file: string): string {
    var dot := LastDot(file);
    if dot.None? || dot.value == 0 || IsDotDot(file) then file else file[..dot.value]
  }

  /** A name that keeps its identity with an extension appended. */
  predicate GoodStem(name: string) {
    name != [] && !(|name| == 1 && name[0] == '.')
  }

  /** The last dot is at or after any dot. */
  lemma {:induction false} LastDotAfter(s: string, k: nat)
    requires k < |s| && s[k] == '.'
    ensures LastDot(s).Some? && LastDot(s).value >= k
    decreases |s|
  {
    if s[|s| - 1] != '.' {
      LastDotAfter(s[..|s| - 1], k);
    }
  }

  /** Appending an extension without dots can be undone: the stem is the
      name, the extension the one appended. */
  lemma AppendExtParts(name: string, ext: string)
    requires GoodStem(name) && '.' !in ext
    ensures Extension(AppendExt(name, ext)) == Some(ext)
    ensures Stem(AppendExt(name, ext)) == name
  {
    var s := AppendExt(name, ext);
    assert s[..|name|] == name && s[|name| + 1..] == ext;
    assert LastDot(s) == Some(|name|) by {
      assert s[|name|] == '.';
      LastDotAfter(s, |name|);
      assert forall j :: |name| < j < |s| ==> s[j] == ext[j - |name| - 1];
    }
    assert !IsDotDot(s) by {
      assert |s| != 2 || s[0] == name[0];
    }
  }
}
