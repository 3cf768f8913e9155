/** The site generator's bookkeeping (src/generator.rs): one index entry per
    recipe, with a unique output file name and sorted tags, the entries
    sorted by title for the index page, and the distinct tags of all
    entries. Template rendering and file copying are not part of this
    model. */
module Generator {
  import opened Wrappers
  import opened Sorting
  import opened Naming
  import Recipes
  import Strings

  /** The output directory of the rendered recipes. */
  const RECIPE_DIR: string := "recipes"

  /** The text around the number of a disambiguated output name. */
  const NUMBER_PREFIX: string := " ("
  const NUMBER_SUFFIX: string := ")"

  /** An entry of the index page: the recipe title, the relative path of the
      rendered recipe and the recipe's tags. */
  datatype IndexEntry = IndexEntry(title: string, path: seq<string>, tags: seq<string>)

  /** The sort key of `render_index`. */
  function Title(entry: IndexEntry): string {
    entry.title
  }

  /** The tags occurring in any of `entries`. */
  ghost function AllTags(entries: seq<IndexEntry>): set<string> {
    set e, t | e in entries && t in e.tags :: t
  }

  /** The tags of `tags[..j]`. */
  ghost function TagsBefore(tags: seq<string>, j: nat): set<string>
    requires j <= |tags|
  {
    set k | 0 <= k < j :: tags[k]
  }

  lemma AllTagsStep(entries: seq<IndexEntry>, i: nat)
    requires i < |entries|
    ensures AllTags(entries[..i + 1]) == AllTags(entries[..i]) + TagsBefore(entries[i].tags, |entries[i].tags|)
  {
    var e := entries[i];
    assert entries[..i + 1] == entries[..i] + [e];
    forall t | t in TagsBefore(e.tags, |e.tags|)
      ensures t in AllTags(entries[..i + 1])
    {
      var k :| 0 <= k < |e.tags| && e.tags[k] == t;
      assert e in entries[..i + 1] && t in e.tags;
    }
    forall t | t in AllTags(entries[..i + 1])
      ensures t in AllTags(entries[..i]) + TagsBefore(e.tags, |e.tags|)
    {
      var d :| d in entries[..i + 1] && t in d.tags;
      if d !in entries[..i] {
        assert d == e;
        var k :| 0 <= k < |e.tags| && e.tags[k] == t;
      }
    }
  }

  /** A sequence without repetitions holds each element once. */
  lemma {:induction false} DistinctCount<T>(s: seq<T>)
    requires Distinct(s)
    ensures forall x :: multiset(s)[x] <= 1
    decreases |s|
  {
    if s != [] {
      DistinctCount(s[1..]);
      assert s == [s[0]] + s[1..];
      HeadNotInTail(s);
    }
  }

  /** A sequence holding each element at most once has no repetitions. */
  lemma CountDistinct<T>(s: seq<T>)
    requires forall x :: multiset(s)[x] <= 1
    ensures Distinct(s)
  {
    forall i, j | 0 <= i < j < |s|
      ensures s[i] != s[j]
    {
      assert s == s[..j] + s[j..];
      assert multiset(s)[s[j]] == multiset(s[..j])[s[j]] + multiset(s[j..])[s[j]];
      assert s[j..][0] == s[j];
      assert s[j] !in multiset(s[..j]);
      assert s[..j][i] == s[i];
    }
  }

  /** The first loop of `get_distinct_tags`: insert every tag of every
      entry into a set, skipping those already there. */
  method CollectTags(entries: seq<IndexEntry>) returns (tags: set<string>)
    ensures tags == AllTags(entries)
  {
    tags := {};
    for i := 0 to |entries|
      invariant tags == AllTags(entries[..i])
    {
      var entryTags := entries[i].tags;
      for j := 0 to |entryTags|
        invariant tags == AllTags(entries[..i]) + TagsBefore(entryTags, j)
      {
        if entryTags[j] !in tags {
          tags := tags + {entryTags[j]};
        }
        assert TagsBefore(entryTags, j + 1) == TagsBefore(entryTags, j) + {entryTags[j]};
      }
      AllTagsStep(entries, i);
    }
    assert entries[..|entries|] == entries;
  }

  /** `into_iter().collect()` of a set: its elements, each once, in an order
      the set chooses. */
  method ListSet(s: set<string>) returns (listed: seq<string>)
    ensures Distinct(listed) && forall t :: t in listed <==> t in s
  {
    listed := [];
    var rest := s;
    while rest != {}
      invariant rest <= s && Distinct(listed)
      invariant forall t :: t in listed <==> t in s && t !in rest
      decreases |rest|
    {
      var t :| t in rest;
      listed := listed + [t];
      rest := rest - {t};
    }
  }

  /** Sorting keeps the elements, and a list without repetitions stays
      without them. */
  lemma SortKeepsDistinct(listed: seq<string>)
    requires Distinct(listed)
    ensures Distinct(Sort(listed, Identity)) && forall t :: t in Sort(listed, Identity) <==> t in listed
  {
    var r := Sort(listed, Identity);
    SortSorted(listed, Identity);
    DistinctCount(listed);
    CountDistinct(r);
    forall t
      ensures t in r <==> t in listed
    {
      assert t in r <==> t in multiset(r);
    }
  }

  /** `get_distinct_tags`: collect the tags of all entries in a set, list
      the set in whatever order it yields, and sort the list. The result
      holds every occurring tag exactly once, in ascending order. */
  method DistinctTags(entries: seq<IndexEntry>) returns (r: seq<string>)
    ensures Sorted(r, Identity) && Distinct(r)
    ensures forall t :: t in r <==> t in AllTags(entries)
  {
    var tags := CollectTags(entries);
    var listed := ListSet(tags);
    r := Sort(listed, Identity);
    SortSorted(listed, Identity);
    SortKeepsDistinct(listed);
  }

  /** The tags are the same set, and so come out the same, whatever order the
      set listed them in. */
  lemma DistinctTagsUnique(a: seq<string>, b: seq<string>, entries: seq<IndexEntry>)
    requires Sorted(a, Identity) && Distinct(a) && forall t :: t in a <==> t in AllTags(entries)
    requires Sorted(b, Identity) && Distinct(b) && forall t :: t in b <==> t in AllTags(entries)
    ensures a == b
  {
    SortedSetUnique(a, b);
  }

  /** The output names handed out for `requests`, the filtered titles in
      the order of the recipe directories. */
  function OutputNames(requests: seq<string>): (r: seq<string>)
    ensures |r| == |requests|
  {
    FindAllDistinct({}, requests, NUMBER_PREFIX, NUMBER_SUFFIX);
    FindAll({}, requests, NUMBER_PREFIX, NUMBER_SUFFIX)
  }

  /** The index entry of a recipe rendered under `name`. */
  function EntryFor(recipe: Recipes.Recipe, name: string, outputExt: string): IndexEntry {
    IndexEntry(recipe.title, [RECIPE_DIR, AppendExt(name, outputExt)], Sort(recipe.metadata.tags, Identity))
  }

  /** Handing out the names of `requests[i..]` starts with the name of
      `requests[i]`. */
  lemma FindAllStep(taken: set<string>, requests: seq<string>, i: nat)
    requires i < |requests|
    ensures var r := FindName(taken, requests[i], NUMBER_PREFIX, NUMBER_SUFFIX);
      FindAll(taken, requests[i..], NUMBER_PREFIX, NUMBER_SUFFIX)
        == [r] + FindAll(taken + {r}, requests[i + 1..], NUMBER_PREFIX, NUMBER_SUFFIX)
  {
    assert requests[i..][1..] == requests[i + 1..];
  }

  /** The filtered titles of `recipes`. */
  function Requests(recipes: seq<Recipes.Recipe>, filter: string -> string): (r: seq<string>)
    ensures |r| == |recipes|
    ensures forall i :: 0 <= i < |r| ==> r[i] == filter(recipes[i].title)
  {
    seq(|recipes|, i requires 0 <= i < |recipes| => filter(recipes[i].title))
  }

  /** The index entries `render_recipes` builds: for each recipe, in order,
      the output name from one `UniqueNameFinder` over the filtered titles,
      the path `recipes/<name>.<ext>` and the recipe's tags sorted. */
  method IndexEntries(recipes: seq<Recipes.Recipe>, filter: string -> string, outputExt: string) returns (entries: seq<IndexEntry>)
    ensures |entries| == |recipes|
    ensures forall i :: 0 <= i < |entries| ==> entries[i] == EntryFor(recipes[i], OutputNames(Requests(recipes, filter))[i], outputExt)
  {
    var requests := Requests(recipes, filter);
    var finder := new UniqueNameFinder(NUMBER_PREFIX, NUMBER_SUFFIX);
    ghost var names: seq<string> := [];
    entries := [];
    for i := 0 to |recipes|
      invariant |entries| == |names| == i
      invariant finder.numberPrefix == NUMBER_PREFIX && finder.numberSuffix == NUMBER_SUFFIX
      invariant OutputNames(requests) == names + FindAll(finder.names, requests[i..], NUMBER_PREFIX, NUMBER_SUFFIX)
      invariant forall k :: 0 <= k < i ==> entries[k] == EntryFor(recipes[k], names[k], outputExt)
    {
      var recipe := recipes[i];
      ghost var taken := finder.names;
      var name := finder.Find(filter(recipe.title));
      FindAllStep(taken, requests, i);
      Strings.AppendAssociates(names, [name], FindAll(finder.names, requests[i + 1..], NUMBER_PREFIX, NUMBER_SUFFIX));
      names := names + [name];
      entries := entries + [EntryFor(recipe, name, outputExt)];
    }
    assert requests[|recipes|..] == [];
    assert names == OutputNames(requests);
  }

  /** Different names give different output files. */
  lemma AppendExtInjective(a: string, b: string, ext: string)
    requires AppendExt(a, ext) == AppendExt(b, ext)
    ensures a == b
  {
    var s := AppendExt(a, ext);
    assert |a| == |b|;
    assert a == s[..|a|] && b == s[..|b|];
  }

  /** No two recipes are rendered to the same file, and every entry's tags
      are sorted. */
  lemma EntriesDistinct(recipes: seq<Recipes.Recipe>, filter: string -> string, outputExt: string, entries: seq<IndexEntry>)
    requires |entries| == |recipes|
    requires forall i :: 0 <= i < |entries| ==> entries[i] == EntryFor(recipes[i], OutputNames(Requests(recipes, filter))[i], outputExt)
    ensures forall i, j :: 0 <= i < j < |entries| ==> entries[i].path != entries[j].path
    ensures forall i :: 0 <= i < |entries| ==> Sorted(entries[i].tags, Identity)
  {
    var names := OutputNames(Requests(recipes, filter));
    FindAllDistinct({}, Requests(recipes, filter), NUMBER_PREFIX, NUMBER_SUFFIX);
    forall i, j | 0 <= i < j < |entries|
      ensures entries[i].path != entries[j].path
    {
      if entries[i].path == entries[j].path {
        assert entries[i].path[1] == entries[j].path[1];
        AppendExtInjective(names[i], names[j], outputExt);
      }
    }
    forall i | 0 <= i < |entries|
      ensures Sorted(entries[i].tags, Identity)
    {
      SortSorted(recipes[i].metadata.tags, Identity);
    }
  }

  /** Two recipes whose titles filter to the same name get that name and the
      name numbered 2. */
  lemma SameTitleTwice(name: string)
    ensures OutputNames([name, name]) == [name, Numbered(name, NUMBER_PREFIX, NUMBER_SUFFIX, 2)]
  {
    var second := Numbered(name, NUMBER_PREFIX, NUMBER_SUFFIX, 2);
    assert [name, name][1..] == [name] && [name][1..] == [];
    assert |second| > |name|;
    SecondVariant({name}, name, NUMBER_PREFIX, NUMBER_SUFFIX);
    assert FindAll({name}, [name], NUMBER_PREFIX, NUMBER_SUFFIX) == [second];
    var empty: set<string> := {};
    assert FindName(empty, name, NUMBER_PREFIX, NUMBER_SUFFIX) == name;
    assert empty + {name} == {name};
    assert FindAll(empty, [name, name], NUMBER_PREFIX, NUMBER_SUFFIX) == [name] + FindAll({name}, [name], NUMBER_PREFIX, NUMBER_SUFFIX);
  }

  /** `render_index`: the entries sorted by title, equal titles keeping
      their order, and the distinct tags. */
  method RenderIndex(entries: seq<IndexEntry>) returns (sorted: seq<IndexEntry>, tags: seq<string>)
    ensures Sorted(sorted, Title) && multiset(sorted) == multiset(entries)
    ensures forall title :: WithKey(sorted, Title, title) == WithKey(entries, Title, title)
    ensures Sorted(tags, Identity) && Distinct(tags)
    ensures forall t :: t in tags <==> t in AllTags(entries)
  {
    tags := DistinctTags(entries);
    sorted := Sort(entries, Title);
    SortSorted(entries, Title);
    forall title
      ensures WithKey(sorted, Title, title) == WithKey(entries, Title, title)
    {
      SortStable(entries, Title, title);
    }
  }
}
