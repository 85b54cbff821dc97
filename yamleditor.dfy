/**
 * The data side of the YAML configuration editor (src/ui_components.py):
 * the widget tree and search labels built from the loaded data, the
 * rebuilding of data from the edited entries, and the label search with its
 * cyclic result index. A widget is reduced to what the code reads back from
 * it: an entry's text, a label's text.
 */
module YamlEditor {
  import opened Wrappers
  import opened Strings
  import opened Numerals

  /** Loaded YAML data: scalars, mappings (in key order) and lists. */
  datatype Yaml =
    | YNull
    | YBool(b: bool)
    | YInt(i: int)
    | YStr(s: string)
    | YMap(entries: seq<(string, Yaml)>)
    | YList(items: seq<Yaml>)

  predicate IsScalar(d: Yaml)
  {
    !d.YMap? && !d.YList?
  }

  /** The keys of a mapping, in order. */
  function Keys(es: seq<(string, Yaml)>): (ks: seq<string>)
    ensures |ks| == |es|
  {
    if es == [] then [] else [es[0].0] + Keys(es[1..])
  }

  /** `mapping[key]`: the value under the first occurrence of `key`. */
  function Lookup(es: seq<(string, Yaml)>, key: string): Yaml
    requires key in Keys(es)
  {
    if es[0].0 == key then es[0].1 else Lookup(es[1..], key)
  }

  predicate DistinctKeys(es: seq<(string, Yaml)>)
  {
    forall i, j :: 0 <= i < j < |es| ==> es[i].0 != es[j].0
  }

  /**
   * Data as a YAML loader produces it and the editor can show: every mapping
   * is a dict, with distinct keys, and every integer is one `str` can print.
   */
  predicate WellFormed(d: Yaml)
    decreases d
  {
    match d
    case YMap(es) => DistinctKeys(es) && forall i :: 0 <= i < |es| ==> WellFormed(es[i].1)
    case YList(items) => forall i :: 0 <= i < |items| ==> WellFormed(items[i])
    case YInt(i) => StrFits(i)
    case _ => true
  }

  /** No `null` anywhere in the data. */
  predicate NullFree(d: Yaml)
    decreases d
  {
    match d
    case YNull => false
    case YMap(es) => forall i :: 0 <= i < |es| ==> NullFree(es[i].1)
    case YList(items) => forall i :: 0 <= i < |items| ==> NullFree(items[i])
    case _ => true
  }

  /** The widget tree: a dict of widgets, a list of widgets, or a text entry. */
  datatype Widget =
    | WMap(entries: seq<(string, Widget)>)
    | WList(items: seq<Widget>)
    | WEntry(text: string)

  /** What an entry first shows: `str(value)`, and nothing for `None`. */
  function EntryText(d: Yaml): string
    requires IsScalar(d)
  {
    match d
    case YNull => ""
    case YBool(b) => if b then "True" else "False"
    case YInt(i) => IntToString(i)
    case YStr(s) => s
  }

  /** The widget tree `_build_ui_recursive` returns for `d`. */
  function Build(d: Yaml): Widget
    decreases d
  {
    match d
    case YMap(es) => WMap(seq(|es|, i requires 0 <= i < |es| => (es[i].0, Build(es[i].1))))
    case YList(items) => WList(seq(|items|, i requires 0 <= i < |items| => Build(items[i])))
    case _ => WEntry(EntryText(d))
  }

  /** The concatenation of `parts`. */
  function Flatten<T>(parts: seq<seq<T>>): seq<T>
  {
    if parts == [] then [] else Flatten(parts[..|parts| - 1]) + parts[|parts| - 1]
  }

  /** Appending the next part to what was already flattened after `base`. */
  lemma FlattenStep<T>(base: seq<T>, parts: seq<seq<T>>, i: nat)
    requires i < |parts|
    ensures base + Flatten(parts[..i + 1]) == base + Flatten(parts[..i]) + parts[i]
  {
    assert parts[..i + 1][..i] == parts[..i];
  }

  /** The label texts `_build_ui_recursive` appends to the search map, one `key:` per mapping entry, in visiting order. */
  function Labels(d: Yaml): seq<string>
    decreases d, 1
  {
    match d
    case YMap(es) => Flatten(EntryLabels(es))
    case YList(items) => Flatten(ItemLabels(items))
    case _ => []
  }

  /** Per mapping entry: its own label, then the labels under its value. */
  function EntryLabels(es: seq<(string, Yaml)>): (parts: seq<seq<string>>)
    ensures |parts| == |es|
    decreases YMap(es), 0
  {
    seq(|es|, i requires 0 <= i < |es| => [es[i].0 + ":"] + Labels(es[i].1))
  }

  /** Per list item: the labels under it. */
  function ItemLabels(items: seq<Yaml>): (parts: seq<seq<string>>)
    ensures |parts| == |items|
    decreases YList(items), 0
  {
    seq(|items|, i requires 0 <= i < |items| => Labels(items[i]))
  }

  lemma {:induction false} FlattenSingletons<T>(parts: seq<seq<T>>)
    requires forall i :: 0 <= i < |parts| ==> |parts[i]| == 1
    ensures Flatten(parts) == seq(|parts|, i requires 0 <= i < |parts| => parts[i][0])
  {
    if parts != [] {
      var n := |parts| - 1;
      FlattenSingletons(parts[..n]);
      assert parts[n] == [parts[n][0]];
    }
  }

  /** A mapping of scalars gets one label per key, `key:`, in key order. */
  lemma LabelsOfFlatMap(es: seq<(string, Yaml)>)
    requires forall i :: 0 <= i < |es| ==> IsScalar(es[i].1)
    ensures Labels(YMap(es)) == seq(|es|, i requires 0 <= i < |es| => es[i].0 + ":")
  {
    var parts := EntryLabels(es);
    forall i | 0 <= i < |es| ensures parts[i] == [es[i].0 + ":"] {
      assert Labels(es[i].1) == [];
    }
    FlattenSingletons(parts);
  }

  /** Data and widgets of the same shape: the same keys in the same order, the same list lengths, entries for scalars. */
  predicate Mirrors(d: Yaml, w: Widget)
    decreases w
  {
    match w
    case WMap(ws) =>
      && d.YMap? && |d.entries| == |ws|
      && forall i :: 0 <= i < |ws| ==> d.entries[i].0 == ws[i].0 && Mirrors(d.entries[i].1, ws[i].1)
    case WList(ws) =>
      && d.YList? && |d.items| == |ws|
      && forall i :: 0 <= i < |ws| ==> Mirrors(d.items[i], ws[i])
    case WEntry(_) => IsScalar(d)
  }

  /** The widget tree mirrors the data it is built from. */
  lemma {:induction false} BuildMirrors(d: Yaml)
    ensures Mirrors(d, Build(d))
    decreases d
  {
    match d
    case YMap(es) =>
      forall i | 0 <= i < |es| ensures Mirrors(es[i].1, Build(d).entries[i].1) {
        BuildMirrors(es[i].1);
      }
    case YList(items) =>
      forall i | 0 <= i < |items| ensures Mirrors(items[i], Build(d).items[i]) {
        BuildMirrors(items[i]);
      }
    case _ =>
  }

  /**
   * What `_rebuild_data_recursive` can walk without raising: every widget
   * key is a key of the original mapping, every widget list index is an
   * index of the original list, and entries stand for scalars.
   */
  predicate Fits(w: Widget, d: Yaml)
    decreases w
  {
    match w
    case WMap(ws) =>
      && d.YMap?
      && forall i :: 0 <= i < |ws| ==> ws[i].0 in Keys(d.entries) && Fits(ws[i].1, Lookup(d.entries, ws[i].0))
    case WList(ws) =>
      && d.YList? && |ws| <= |d.items|
      && forall i :: 0 <= i < |ws| ==> Fits(ws[i], d.items[i])
    case WEntry(_) => IsScalar(d)
  }

  const TrueWords: seq<string> := ["true", "1", "t", "y", "yes"]

  /**
   * An entry's text read back with the type of the original value: a
   * boolean from a set of words, `None` from "none", an integer through
   * `int()`, keeping the text when `int()` raises.
   */
  function Coerce(text: string, original: Yaml): Yaml
    requires IsScalar(original)
  {
    match original
    case YBool(_) => YBool(Lower(text) in TrueWords)
    case YNull => if Lower(text) == "none" then YNull else YStr(text)
    case YInt(_) => (match ParseInt(text) case Some(i) => YInt(i) case None => YStr(text))
    case YStr(_) => YStr(text)
  }

  /** `Coerce` where an empty entry of a `None` original reads back as `None`, as it was shown. */
  function CoerceFixed(text: string, original: Yaml): Yaml
    requires IsScalar(original)
  {
    if original.YNull? && text == "" then YNull else Coerce(text, original)
  }

  /** `_rebuild_data_recursive`, with the original or the corrected reading of entries. */
  function Rebuild(w: Widget, d: Yaml, fixedNull: bool): Yaml
    requires Fits(w, d)
    decreases w
  {
    match w
    case WMap(ws) =>
      YMap(seq(|ws|, i requires 0 <= i < |ws| => (ws[i].0, Rebuild(ws[i].1, Lookup(d.entries, ws[i].0), fixedNull))))
    case WList(ws) =>
      YList(seq(|ws|, i requires 0 <= i < |ws| => Rebuild(ws[i], d.items[i], fixedNull)))
    case WEntry(text) => if fixedNull then CoerceFixed(text, d) else Coerce(text, d)
  }

  /** The rebuilt data has the keys and list lengths of the widget tree, whatever was typed. */
  lemma {:induction false} RebuildMirrors(w: Widget, d: Yaml, fixedNull: bool)
    requires Fits(w, d)
    ensures Mirrors(Rebuild(w, d, fixedNull), w)
    decreases w
  {
    match w
    case WMap(ws) =>
      forall i | 0 <= i < |ws|
        ensures Mirrors(Rebuild(w, d, fixedNull).entries[i].1, ws[i].1)
      {
        RebuildMirrors(ws[i].1, Lookup(d.entries, ws[i].0), fixedNull);
      }
    case WList(ws) =>
      forall i | 0 <= i < |ws| ensures Mirrors(Rebuild(w, d, fixedNull).items[i], ws[i]) {
        RebuildMirrors(ws[i], d.items[i], fixedNull);
      }
    case WEntry(_) =>
  }

  lemma {:induction false} KeysAt(es: seq<(string, Yaml)>, i: nat)
    requires i < |es|
    ensures es[i].0 in Keys(es)
    ensures DistinctKeys(es) ==> Lookup(es, es[i].0) == es[i].1
    decreases i
  {
    if i > 0 {
      KeysAt(es[1..], i - 1);
      assert es[1..][i - 1] == es[i];
    }
  }

  /** An untouched entry reads back as the value it shows. */
  lemma ScalarRoundTrip(d: Yaml, fixedNull: bool)
    requires IsScalar(d) && (fixedNull || !d.YNull?)
    requires d.YInt? ==> StrFits(d.i)
    ensures (if fixedNull then CoerceFixed(EntryText(d), d) else Coerce(EntryText(d), d)) == d
  {
    match d
    case YNull =>
    case YBool(b) =>
      if b {
        assert Lower("True") == "true";
      } else {
        assert Lower("False") == "false";
        assert "false" !in TrueWords;
      }
    case YInt(i) => ParseIntRoundTrip(i);
    case YStr(_) =>
  }

  /**
   * Saving without edits gives the loaded data back: always with the
   * corrected reading, and with the original one when the data has no `null`.
   */
  lemma {:induction false} RebuildRoundTrip(d: Yaml, fixedNull: bool)
    requires WellFormed(d)
    requires fixedNull || NullFree(d)
    ensures Fits(Build(d), d)
    ensures Rebuild(Build(d), d, fixedNull) == d
    decreases d
  {
    match d
    case YMap(es) =>
      var ws := Build(d).entries;
      forall i | 0 <= i < |es|
        ensures ws[i].0 in Keys(es) && Lookup(es, ws[i].0) == es[i].1
        ensures Fits(ws[i].1, es[i].1) && Rebuild(ws[i].1, es[i].1, fixedNull) == es[i].1
      {
        KeysAt(es, i);
        RebuildRoundTrip(es[i].1, fixedNull);
      }
      assert Rebuild(Build(d), d, fixedNull).entries == es;
    case YList(items) =>
      var ws := Build(d).items;
      forall i | 0 <= i < |items|
        ensures Fits(ws[i], items[i]) && Rebuild(ws[i], items[i], fixedNull) == items[i]
      {
        RebuildRoundTrip(items[i], fixedNull);
      }
      assert Rebuild(Build(d), d, fixedNull).items == items;
    case _ =>
      ScalarRoundTrip(d, fixedNull);
  }

  /** As written, saving an untouched `null` writes an empty string in its place. */
  lemma NullBecomesEmptyString(key: string)
    ensures var d := YMap([(key, YNull)]);
      && WellFormed(d) && Fits(Build(d), d)
      && Rebuild(Build(d), d, false) == YMap([(key, YStr(""))])
      && Rebuild(Build(d), d, false) != d
  {
    var d := YMap([(key, YNull)]);
    KeysAt(d.entries, 0);
    assert Build(d).entries[0] == (key, WEntry(""));
    assert Lower("") != "none";
    assert Rebuild(Build(d), d, false).entries == [(key, YStr(""))];
  }

  /** The positions of the labels whose lowercased text holds `query`, in order. */
  function Matching(query: string, labels: seq<string>): seq<nat>
  {
    if labels == [] then []
    else
      var n := |labels| - 1;
      Matching(query, labels[..n]) + if Contains(Lower(labels[n]), query) then [n] else []
  }

  /** The results are exactly the matching labels, each once, in label order. */
  lemma {:induction false} MatchingMembers(query: string, labels: seq<string>)
    ensures forall j: nat :: j in Matching(query, labels) <==> j < |labels| && Contains(Lower(labels[j]), query)
    ensures forall a, b :: 0 <= a < b < |Matching(query, labels)| ==> Matching(query, labels)[a] < Matching(query, labels)[b]
  {
    if labels != [] {
      var n := |labels| - 1;
      var init := Matching(query, labels[..n]);
      MatchingMembers(query, labels[..n]);
      assert forall j :: 0 <= j < n ==> labels[..n][j] == labels[j];
      forall a | 0 <= a < |init| ensures init[a] < n {
        assert init[a] in init;
      }
    }
  }

  /** The editor window's data and search state. */
  class Editor {
    const data: Yaml
    var widgets: Widget
    /** The texts of the search labels, in building order. */
    var searchMap: seq<string>
    /** Positions in `searchMap` of the current results. */
    var searchResults: seq<nat>
    var index: int
    var lastQuery: Option<string>
    /** The position of the label currently highlighted, if any. */
    var highlighted: Option<nat>
    var statusText: string

    ghost predicate Valid()
      reads this
    {
      && (match lastQuery
          case None => searchResults == []
          case Some(q) => searchResults == Matching(q, searchMap))
      && -1 <= index && (index == -1 || index < |searchResults|)
      && (highlighted.Some? ==> 0 <= index && highlighted.value == searchResults[index])
    }

    constructor(yaml: Yaml)
      ensures Valid()
      ensures data == yaml && widgets == Build(yaml) && searchMap == Labels(yaml)
      ensures searchResults == [] && index == -1 && lastQuery == None && highlighted == None
    {
      data := yaml;
      searchMap := [];
      searchResults := [];
      index := -1;
      lastQuery := None;
      highlighted := None;
      statusText := "";
      new;
      widgets := BuildUiRecursive(yaml);
    }

    /** `_build_ui_recursive`: builds the widgets for `node` and appends its labels to the search map. */
    method BuildUiRecursive(node: Yaml) returns (w: Widget)
      modifies this`searchMap
      ensures w == Build(node)
      ensures searchMap == old(searchMap) + Labels(node)
      decreases node, 1
    {
      match node {
        case YMap(es) =>
          var ws := BuildEntries(es);
          w := WMap(ws);
        case YList(items) =>
          var ws := BuildItems(items);
          w := WList(ws);
        case _ =>
          w := WEntry(EntryText(node));
      }
    }

    /** The loop of `_build_ui_recursive` over a mapping: a label, then the value's widgets, per entry. */
    method BuildEntries(es: seq<(string, Yaml)>) returns (ws: seq<(string, Widget)>)
      modifies this`searchMap
      ensures ws == Build(YMap(es)).entries
      ensures searchMap == old(searchMap) + Flatten(EntryLabels(es))
      decreases YMap(es), 0
    {
      var parts := EntryLabels(es);
      ws := [];
      for i := 0 to |es|
        invariant |ws| == i
        invariant forall j :: 0 <= j < i ==> ws[j] == (es[j].0, Build(es[j].1))
        invariant searchMap == old(searchMap) + Flatten(parts[..i])
      {
        assert es[i] in es;
        searchMap := searchMap + [es[i].0 + ":"];
        var child := BuildUiRecursive(es[i].1);
        ws := ws + [(es[i].0, child)];
        FlattenStep(old(searchMap), parts, i);
      }
      assert parts[..|es|] == parts;
    }

    /** The loop of `_build_ui_recursive` over a list: the widgets of each item. */
    method BuildItems(items: seq<Yaml>) returns (ws: seq<Widget>)
      modifies this`searchMap
      ensures ws == Build(YList(items)).items
      ensures searchMap == old(searchMap) + Flatten(ItemLabels(items))
      decreases YList(items), 0
    {
      var parts := ItemLabels(items);
      ws := [];
      for i := 0 to |items|
        invariant |ws| == i
        invariant forall j :: 0 <= j < i ==> ws[j] == Build(items[j])
        invariant searchMap == old(searchMap) + Flatten(parts[..i])
      {
        assert items[i] in items;
        var child := BuildUiRecursive(items[i]);
        ws := ws + [child];
        FlattenStep(old(searchMap), parts, i);
      }
      assert parts[..|items|] == parts;
    }

    /**
     * `_perform_search` with the text of the search entry: a new query
     * recomputes the results and restarts the index; every call then moves
     * the highlight to the next result, cyclically.
     */
    method PerformSearch(entryText: string, findNext: bool)
      requires Valid()
      modifies this
      ensures Valid()
      ensures widgets == old(widgets) && searchMap == old(searchMap)
      ensures var q := Lower(entryText);
        if q == "" then
          && searchResults == old(searchResults) && index == old(index) && lastQuery == old(lastQuery)
          && highlighted == old(highlighted) && statusText == old(statusText)
        else
          var isNew := !findNext || old(lastQuery) != Some(q);
          var results := if isNew then Matching(q, searchMap) else old(searchResults);
          var start := if isNew then -1 else old(index);
          && lastQuery == Some(q)
          && searchResults == results
          && if results == [] then
               index == start && highlighted == None && statusText == "Nessun risultato"
             else
               && index == (start + 1) % |results|
               && highlighted == Some(results[index])
               && statusText == if isNew then "Trovati: " + IntToString(|results|) else old(statusText)
    {
      var query := Lower(entryText);
      if query == "" {
        return;
      }
      highlighted := None;
      if !findNext || lastQuery != Some(query) {
        searchResults := Matching(query, searchMap);
        index := -1;
        statusText := "Trovati: " + IntToString(|searchResults|);
        lastQuery := Some(query);
      }
      if searchResults == [] {
        statusText := "Nessun risultato";
        return;
      }
      index := (index + 1) % |searchResults|;
      highlighted := Some(searchResults[index]);
    }
  }
}
