/**
 * The earlier client (test_api.py `App`): a flat checkbox list filled from
 * `/list_files` in server order, select-all, and one batch request for the
 * selected names whose answer is shown as it comes. Widgets and the network
 * are left out as in the main client; the answer of the request is a
 * parameter, typed by the server's own replies.
 */
module LegacyClient {
  import opened Selection
  import opened Numerals
  import opened Strings
  import HexDump
  import Server
  import Client

  type byte = HexDump.byte

  /** What `requests.post` gave: an exception of its own, or the server's answer. */
  datatype PostOutcome = RequestFailed(message: string) | Answer(reply: Server.Reply)

  /** The beginning of the text of the `HTTPError` that `raise_for_status` raises for an error code. */
  function HttpErrorText(code: int): string
  {
    IntToString(code) + if code < 500 then " Client Error" else " Server Error"
  }

  const ConnectionErrorKey := Server.JStr("Errore di Connessione")

  /** What a request puts on screen: nothing, or the found files and the errors. */
  datatype Shown =
    | Unchanged
    | Results(files: map<string, Server.Document>, errors: map<Server.Json, string>)

  /**
   * `display_results` of the answer: a batch as the server sent it; any
   * request exception, an error status included, as a single error under
   * "Errore di Connessione".
   */
  function ShownFor(outcome: PostOutcome): (s: Shown)
    ensures s.Results?
    ensures outcome.RequestFailed? ==> s.files == map[] && s.errors.Keys == {ConnectionErrorKey}
    ensures outcome.Answer? && outcome.reply.Batch? ==>
      s == Results(outcome.reply.files, outcome.reply.errors)
    ensures outcome.Answer? && !outcome.reply.Batch? ==>
      s == Results(map[], map[ConnectionErrorKey := HttpErrorText(Server.Code(outcome.reply))])
  {
    match outcome
    case RequestFailed(message) => Results(map[], map[ConnectionErrorKey := message])
    case Answer(reply) =>
      match reply
      case Batch(_, files, errors) => Results(files, errors)
      case _ => Results(map[], map[ConnectionErrorKey := HttpErrorText(Server.Code(reply))])
  }

  /** The window of the earlier client. */
  class App {
    /** `self.checkboxes` */
    const boxes: CheckboxMap
    /** `self.select_all_var` */
    var selectAll: bool

    ghost predicate Valid()
      reads this, boxes
    {
      boxes.Valid()
    }

    /** The window before its first refresh. */
    constructor()
      ensures Valid() && fresh(boxes)
      ensures boxes.order == [] && !selectAll
    {
      boxes := new CheckboxMap();
      selectAll := false;
    }

    /**
     * `load_available_files`: the map is cleared and select-all reset; on a
     * listing, one unchecked checkbox is assigned per listed name, in server
     * order.
     */
    method LoadAvailableFiles(reply: Client.ListReply)
      requires Valid()
      modifies this, boxes
      ensures Valid() && !selectAll
      ensures !Client.ListedFiles(reply) ==> boxes.order == [] && boxes.checked == map[]
      ensures Client.ListedFiles(reply) ==>
        && boxes.order == RegisteredAll([], reply.files)
        && boxes.checked == AllAs(reply.files, false)
        && (forall p :: p in boxes.order <==> p in reply.files)
        && (Distinct(reply.files) ==> boxes.order == reply.files)
    {
      boxes.Clear();
      selectAll := false;
      if !Client.ListedFiles(reply) {
        return;
      }
      var files := reply.files;
      if files == [] {
        return;
      }
      boxes.PutAll(files);
      assert map[] + AllAs(files, false) == AllAs(files, false);
      RegisteredAllMembers([], files);
      if Distinct(files) {
        RegisteredAllAppends([], files);
      }
    }

    /** `toggle_select_all`: every checkbox takes the select-all state; no key is added or removed. */
    method ToggleSelectAll()
      requires Valid()
      modifies boxes
      ensures Valid()
      ensures boxes.order == old(boxes.order)
      ensures boxes.checked == AllAs(boxes.order, selectAll)
    {
      boxes.SetAll(selectAll);
    }

    /**
     * `get_files_logic`: with nothing selected no request is made; otherwise
     * the selected names are posted and the answer is shown.
     */
    method GetFilesLogic(post: Server.Body -> PostOutcome) returns (shown: Shown)
      requires Valid()
      ensures var sel := SelectedKeys(boxes.order, boxes.checked);
        && (sel == [] ==> shown == Unchanged)
        && (sel != [] ==> shown == ShownFor(post(Server.Payload(sel))))
    {
      var selected := SelectedKeys(boxes.order, boxes.checked);
      if selected == [] {
        return Unchanged;
      }
      shown := ShownFor(post(Server.Payload(selected)));
    }

    /** The copy of `format_hex_dump` kept in test_api.py: the same lines as src/utils.py. */
    static method FormatHexDump(data: seq<byte>) returns (dump: string)
      ensures dump == Join(HexDump.Lines(data), "\n")
      ensures dump == "" <==> |data| == 0
    {
      dump := HexDump.FormatHexDump(data);
    }
  }
}
