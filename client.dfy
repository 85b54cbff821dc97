/**
 * The main client (main.py `App`): refreshing the file list into the
 * checkbox tree, selecting all, and fetching the selected files.
 * The network is a parameter: the reply of `/list_files` and, per path, the
 * outcome of fetching it. Widgets are left out; what remains is the
 * selection map, the select-all flag and the status line.
 */
module Client {
  import opened Wrappers
  import opened Strings
  import opened Numerals
  import opened Selection
  import opened FileTree
  import opened Preview
  import HexDump

  type byte = HexDump.byte

  /** Python's `s[:n]`: a negative `n` counts from the end. */
  function PrefixSlice(s: string, n: int): string
  {
    if n >= 0 then (if n <= |s| then s[..n] else s)
    else if |s| + n >= 0 then s[..|s| + n]
    else ""
  }

  /**
   * `truncate_text(text, max_len)`: short texts are kept; a longer text keeps
   * its first `max_len - 3` characters and ends in "...", `max_len` in all.
   */
  function TruncateText(text: string, maxLen: int): (r: string)
    ensures |text| <= maxLen ==> r == text
    ensures 3 <= maxLen < |text| ==> |r| == maxLen && r[..maxLen - 3] == text[..maxLen - 3] && r[maxLen - 3..] == "..."
  {
    if |text| > maxLen then PrefixSlice(text, maxLen - 3) + "..." else text
  }

  /** What `GET /list_files` gave: a failed request, or the decoded JSON body. */
  datatype ListReply =
    | Unreachable(error: string)
    | Answered(status: Option<string>, files: seq<string>, message: Option<string>)

  predicate ListedFiles(reply: ListReply)
  {
    reply.Answered? && reply.status == Some("success")
  }

  /** The text of the `RequestException` raised for a non-success body. */
  function ApiError(message: Option<string>): string
  {
    "Errore API: " + match message case None => "None" case Some(m) => m
  }

  /** What fetching one path gave: its bytes, or the request error's text. */
  datatype FetchOutcome = Fetched(content: seq<byte>) | Failed(error: string)

  /** `_fetch_file_details`: the bytes and the MIME type named by the extension. */
  datatype Details = Details(data: seq<byte>, mimeType: string)

  function FileDetails(name: string, content: seq<byte>): (d: Details)
    ensures d.data == content
    ensures StartsWith(d.mimeType, "image/") <==> Extension(name) in {"png", "jpg"}
  {
    MimeClasses(name);
    Details(content, MimeFor(name))
  }

  /** What a fetch puts on screen. */
  datatype Shown =
    | Unchanged
    | Viewer(path: string, details: Details, view: View)
    | Results(files: seq<(string, Details)>, errors: seq<(string, string)>)

  function Keys<T>(ps: seq<(string, T)>): (r: seq<string>)
    ensures |r| == |ps|
    ensures forall i :: 0 <= i < |ps| ==> r[i] == ps[i].0
  {
    seq(|ps|, i requires 0 <= i < |ps| => ps[i].0)
  }

  /** The entries of `files_found` after fetching `sel` in order. */
  function FetchedPart(sel: seq<string>, fetch: string -> FetchOutcome): seq<(string, Details)>
    decreases |sel|
  {
    if sel == [] then []
    else
      var last := sel[|sel| - 1];
      FetchedPart(sel[..|sel| - 1], fetch)
      + match fetch(last) case Fetched(c) => [(last, FileDetails(last, c))] case Failed(_) => []
  }

  /** The entries of `errors` after fetching `sel` in order. */
  function FailedPart(sel: seq<string>, fetch: string -> FetchOutcome): seq<(string, string)>
    decreases |sel|
  {
    if sel == [] then []
    else
      var last := sel[|sel| - 1];
      FailedPart(sel[..|sel| - 1], fetch)
      + match fetch(last) case Fetched(_) => [] case Failed(e) => [(last, e)]
  }

  /**
   * Every selected path lands in exactly one of the two maps, each map keeps
   * the selection's order, and no other path appears.
   */
  lemma {:induction false} PartitionCovers(sel: seq<string>, fetch: string -> FetchOutcome)
    ensures |FetchedPart(sel, fetch)| + |FailedPart(sel, fetch)| == |sel|
    ensures forall p :: p in Keys(FetchedPart(sel, fetch)) <==> p in sel && fetch(p).Fetched?
    ensures forall p :: p in Keys(FailedPart(sel, fetch)) <==> p in sel && fetch(p).Failed?
    ensures forall i :: 0 <= i < |FetchedPart(sel, fetch)| ==>
      var (p, d) := FetchedPart(sel, fetch)[i]; fetch(p).Fetched? && d == FileDetails(p, fetch(p).content)
    ensures forall i :: 0 <= i < |FailedPart(sel, fetch)| ==>
      var (p, e) := FailedPart(sel, fetch)[i]; fetch(p).Failed? && e == fetch(p).error
    decreases |sel|
  {
    if sel != [] {
      var init := sel[..|sel| - 1];
      var last := sel[|sel| - 1];
      PartitionCovers(init, fetch);
      assert sel == init + [last];
      var f := FetchedPart(sel, fetch);
      var g := FailedPart(sel, fetch);
      assert Keys(f) == Keys(FetchedPart(init, fetch)) + (if fetch(last).Fetched? then [last] else []);
      assert Keys(g) == Keys(FailedPart(init, fetch)) + (if fetch(last).Failed? then [last] else []);
    }
  }

  /** The final status of a fetch of several files. */
  function Summary(found: nat, failed: nat): string
  {
    "Recuperati " + IntToString(found) + " file."
    + if failed > 0 then " Falliti: " + IntToString(failed) + "." else ""
  }

  /** The summary mentions failures exactly when some fetch failed. */
  lemma SummaryMentionsFailures(found: nat, failed: nat)
    ensures Contains(Summary(found, failed), "Falliti") <==> failed > 0
  {
    var head := "Recuperati " + IntToString(found) + " file.";
    var s := Summary(found, failed);
    if failed > 0 {
      var tail := IntToString(failed) + ".";
      assert s == head + " " + "Falliti" + ": " + tail;
      assert s[|head| + 1..|head| + 8] == "Falliti";
      ContainsAt(s, "Falliti", |head| + 1);
    } else {
      ToBaseDigits(found, 10);
      assert 'F' !in IntToString(found);
      assert 'F' !in head;
      if Contains(s, "Falliti") {
        ContainsFirstChar(s, "Falliti");
      }
    }
  }

  /** One more entry of the visit: the loop invariant of `PopulateTreeView` carries over. */
  lemma VisitStep(t: Tree, parent: string, names: seq<string>, i: nat,
                  order0: seq<string>, checked0: map<string, bool>)
    requires i < |names| && forall j :: 0 <= j < |names| ==> names[j] in t
    ensures
      var before := VisitNames(t, parent, names[..i]);
      var here := VisitEntry(t, parent, names[i]);
      && RegisteredAll(RegisteredAll(order0, before), here) == RegisteredAll(order0, VisitNames(t, parent, names[..i + 1]))
      && checked0 + AllAs(before, false) + AllAs(here, false) == checked0 + AllAs(VisitNames(t, parent, names[..i + 1]), false)
  {
    var before := VisitNames(t, parent, names[..i]);
    var here := VisitEntry(t, parent, names[i]);
    assert names[..i + 1] == names[..i] + [names[i]];
    VisitNamesAppend(t, parent, names[..i], names[i]);
    RegisteredAllConcat(order0, before, here);
    UncheckedConcat(checked0, before, here);
  }

  /**
   * A listing of clean paths, no one running through another, gets one
   * checkbox per listed path, in the order of the visit.
   */
  lemma ListingRegistered(t: Tree, files: seq<string>)
    requires forall i :: 0 <= i < |files| ==> CleanPath(files[i])
    requires Describes(t, SegmentsOf(files))
    ensures RegisteredAll([], Visit(t, "")) == Visit(t, "")
    ensures forall p :: p in Visit(t, "") <==> p in files
  {
    VisitRegistersInputPaths(t, files);
    VisitDistinct(t, files);
    assert [] + Visit(t, "") == Visit(t, "");
    RegisteredAllAppends([], Visit(t, ""));
  }

  /** The client window. */
  class App {
    /** `self.checkboxes` */
    const boxes: CheckboxMap
    /** `self.select_all_var` */
    var selectAll: bool
    /** The status line's text. */
    var status: string

    ghost predicate Valid()
      reads this, boxes
    {
      boxes.Valid()
    }

    /** The window before its first refresh. */
    constructor()
      ensures Valid() && fresh(boxes)
      ensures boxes.order == [] && !selectAll && status == "Pronto."
    {
      boxes := new CheckboxMap();
      selectAll := false;
      status := "Pronto.";
    }

    /** `create_file_node`: register an unchecked checkbox under the full path. */
    method CreateFileNode(fullPath: string)
      requires Valid()
      modifies boxes
      ensures Valid()
      ensures boxes.order == Registered(old(boxes.order), fullPath)
      ensures boxes.checked == old(boxes.checked)[fullPath := false]
    {
      boxes.Put(fullPath);
    }

    /**
     * `populate_tree_view(parent, tree, indent, current_path)`: the files of
     * `t` are registered in the order of `Visit`, each under its full path.
     */
    method PopulateTreeView(t: Tree, parent: string)
      requires Valid()
      modifies boxes
      ensures Valid()
      ensures boxes.order == RegisteredAll(old(boxes.order), Visit(t, parent))
      ensures boxes.checked == old(boxes.checked) + AllAs(Visit(t, parent), false)
      decreases Folder(t), 1
    {
      var names := SortedNames(t, t.Keys);
      ghost var order0, checked0 := boxes.order, boxes.checked;
      var i := 0;
      while i < |names|
        invariant 0 <= i <= |names|
        invariant Valid()
        invariant boxes.order == RegisteredAll(order0, VisitNames(t, parent, names[..i]))
        invariant boxes.checked == checked0 + AllAs(VisitNames(t, parent, names[..i]), false)
      {
        CreateNode(t, parent, names[i]);
        VisitStep(t, parent, names, i, order0, checked0);
        i := i + 1;
      }
      assert names[..|names|] == names;
    }

    /** The body of `populate_tree_view`'s loop: one entry of `t`, a file or a folder. */
    method CreateNode(t: Tree, parent: string, name: string)
      requires Valid() && name in t
      modifies boxes
      ensures Valid()
      ensures boxes.order == RegisteredAll(old(boxes.order), VisitEntry(t, parent, name))
      ensures boxes.checked == old(boxes.checked) + AllAs(VisitEntry(t, parent, name), false)
      decreases Folder(t), 0
    {
      var fullPath := FullPath(parent, name);
      assert t[name] in t.Values;
      match t[name] {
        case File =>
          CreateFileNode(fullPath);
          RegisteredAllOne(old(boxes.order), fullPath);
          UncheckedOne(old(boxes.checked), fullPath);
        case Folder(content) =>
          CreateFolderNode(content, fullPath);
      }
    }

    /** `create_folder_node`: the folder's contents are registered below its full path. */
    method CreateFolderNode(content: Tree, fullPath: string)
      requires Valid()
      modifies boxes
      ensures Valid()
      ensures boxes.order == RegisteredAll(old(boxes.order), Visit(content, fullPath))
      ensures boxes.checked == old(boxes.checked) + AllAs(Visit(content, fullPath), false)
      decreases Folder(content), 2
    {
      PopulateTreeView(content, fullPath);
    }

    /**
     * `load_available_files`: the selection map is cleared and select-all
     * reset; on a listing, the tree of the listed paths is registered. It
     * reports `raised` when `build_file_tree` raises, which it does only when
     * a listed path runs through another listed file.
     */
    method LoadAvailableFiles(reply: ListReply) returns (raised: bool)
      requires Valid()
      modifies this, boxes
      ensures Valid() && !selectAll
      ensures raised ==> ListedFiles(reply) && !PrefixFree(SegmentsOf(reply.files))
      ensures raised ==> boxes.order == [] && status == "Aggiornamento lista file..."
      ensures reply.Unreachable? ==> boxes.order == [] && status == "Server non raggiungibile: " + reply.error
      ensures reply.Answered? && !ListedFiles(reply) ==>
        boxes.order == [] && status == "Server non raggiungibile: " + ApiError(reply.message)
      ensures ListedFiles(reply) && reply.files == [] ==>
        boxes.order == [] && status == "Nessun file trovato sul server."
      ensures ListedFiles(reply) && reply.files != [] && PrefixFree(SegmentsOf(reply.files)) ==>
        && !raised
        && status == "Trovati " + IntToString(|reply.files|) + " file sul server."
        && (forall k :: k in boxes.checked ==> !boxes.checked[k])
        && ((forall i :: 0 <= i < |reply.files| ==> CleanPath(reply.files[i])) ==>
              && BuildTree(reply.files).Some?
              && Describes(BuildTree(reply.files).value, SegmentsOf(reply.files))
              && boxes.order == Visit(BuildTree(reply.files).value, "")
              && forall p :: p in boxes.order <==> p in reply.files)
      ensures ListedFiles(reply) && reply.files != [] ==> (raised <==> BuildTree(reply.files).None?)
      ensures ListedFiles(reply) && reply.files != [] && !raised ==>
        && status == "Trovati " + IntToString(|reply.files|) + " file sul server."
        && boxes.order == RegisteredAll([], Visit(BuildTree(reply.files).value, ""))
        && boxes.checked == AllAs(Visit(BuildTree(reply.files).value, ""), false)
    {
      boxes.Clear();
      selectAll := false;
      status := "Aggiornamento lista file...";
      raised := false;
      match reply {
        case Unreachable(error) =>
          status := "Server non raggiungibile: " + error;
        case Answered(st, files, message) =>
          if st != Some("success") {
            status := "Server non raggiungibile: " + ApiError(message);
            return;
          }
          if files == [] {
            status := "Nessun file trovato sul server.";
            return;
          }
          var tree := BuildFileTree(files);
          if tree.None? {
            raised := true;
            return;
          }
          ShowListing(files, tree.value);
          if PrefixFree(SegmentsOf(files)) && forall i :: 0 <= i < |files| ==> CleanPath(files[i]) {
            ListingRegistered(tree.value, files);
          }
      }
    }

    /** The end of `load_available_files` once the tree is built: its files, unchecked, and their count. */
    method ShowListing(files: seq<string>, t: Tree)
      requires Valid() && boxes.order == [] && boxes.checked == map[]
      modifies this, boxes
      ensures Valid() && selectAll == old(selectAll)
      ensures status == "Trovati " + IntToString(|files|) + " file sul server."
      ensures boxes.order == RegisteredAll([], Visit(t, ""))
      ensures boxes.checked == AllAs(Visit(t, ""), false)
      ensures forall k :: k in boxes.checked ==> !boxes.checked[k]
    {
      PopulateTreeView(t, "");
      AllAsMembers(Visit(t, ""), false);
      status := "Trovati " + IntToString(|files|) + " file sul server.";
    }

    /** `toggle_select_all`: every checkbox takes the select-all state; no key is added or removed. */
    method ToggleSelectAll()
      requires Valid()
      modifies boxes
      ensures Valid()
      ensures boxes.order == old(boxes.order)
      ensures boxes.checked == AllAs(boxes.order, selectAll)
    {
      boxes.SetAll(selectAll);
    }

    /** A click on "Tutti": the variable flips, then its command runs. */
    method ClickSelectAll()
      requires Valid()
      modifies this, boxes
      ensures Valid()
      ensures selectAll == !old(selectAll)
      ensures status == old(status)
      ensures boxes.order == old(boxes.order)
      ensures boxes.checked == AllAs(boxes.order, selectAll)
      ensures SelectedKeys(boxes.order, boxes.checked) == if selectAll then boxes.order else []
    {
      selectAll := !selectAll;
      ToggleSelectAll();
      if selectAll {
        AllSelected(boxes.order);
      } else {
        NoneSelected(boxes.order);
      }
    }

    /**
     * `get_all_files_logic`: nothing selected only sets the status; one path
     * is fetched and opened in the viewer; several are fetched in order, each
     * landing in the found or the failed list, and the status sums them up.
     */
    method GetAllFilesLogic(fetch: string -> FetchOutcome) returns (shown: Shown)
      requires Valid()
      modifies this
      ensures Valid()
      ensures selectAll == old(selectAll)
      ensures var sel := SelectedKeys(boxes.order, boxes.checked);
        && (|sel| == 0 ==> shown == Unchanged && status == "Nessun file selezionato.")
        && (|sel| == 1 && fetch(sel[0]).Fetched? ==>
              var d := FileDetails(sel[0], fetch(sel[0]).content);
              shown == Viewer(sel[0], d, Dispatch(sel[0], d.mimeType))
              && status == "Visualizzazione di: " + sel[0])
        && (|sel| == 1 && fetch(sel[0]).Failed? ==>
              shown == Results([], [(sel[0], fetch(sel[0]).error)])
              && status == "Errore nel recuperare " + sel[0] + ": " + fetch(sel[0]).error)
        && (|sel| >= 2 ==>
              shown == Results(FetchedPart(sel, fetch), FailedPart(sel, fetch))
              && status == Summary(|FetchedPart(sel, fetch)|, |FailedPart(sel, fetch)|))
    {
      var selected := SelectedKeys(boxes.order, boxes.checked);
      if |selected| == 0 {
        status := "Nessun file selezionato.";
        return Unchanged;
      }
      if |selected| == 1 {
        var name := selected[0];
        match fetch(name) {
          case Fetched(content) =>
            var details := FileDetails(name, content);
            status := "Visualizzazione di: " + name;
            return Viewer(name, details, Dispatch(name, details.mimeType));
          case Failed(error) =>
            status := "Errore nel recuperare " + name + ": " + error;
            return Results([], [(name, error)]);
        }
      }
      var found: seq<(string, Details)> := [];
      var errors: seq<(string, string)> := [];
      for i := 0 to |selected|
        invariant found == FetchedPart(selected[..i], fetch)
        invariant errors == FailedPart(selected[..i], fetch)
      {
        var name := selected[i];
        assert selected[..i + 1][..i] == selected[..i];
        match fetch(name) {
          case Fetched(content) =>
            found := found + [(name, FileDetails(name, content))];
          case Failed(error) =>
            errors := errors + [(name, error)];
        }
      }
      assert selected[..|selected|] == selected;
      status := Summary(|found|, |errors|);
      return Results(found, errors);
    }
  }
}
