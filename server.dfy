/**
 * The document server (server.py): `list_files` lists the regular files of
 * the documents folder, and `get_documents` answers a batch request, sorting
 * every requested name into the found files or the errors.
 * The folder is a parameter (its listing and what each name is), and so is
 * `mimetypes.guess_type`.
 */
module Server {
  import opened Wrappers
  import opened Strings
  import HexDump

  type byte = HexDump.byte

  /** A JSON value as Flask decodes it (numbers are integers here). */
  datatype Json =
    | JNull
    | JBool(b: bool)
    | JInt(i: int)
    | JStr(s: string)
    | JArr(items: seq<Json>)
    | JObj(fields: map<string, Json>)

  /** The request body: not decodable as JSON, or the decoded value. */
  datatype Body = NotJson | Parsed(value: Json)

  /** Python truthiness of a decoded value. */
  predicate Truthy(j: Json)
  {
    match j
    case JNull => false
    case JBool(b) => b
    case JInt(i) => i != 0
    case JStr(s) => s != ""
    case JArr(items) => items != []
    case JObj(fields) => fields != map[]
  }

  /** Values a Python dict accepts as a key. */
  predicate Hashable(j: Json)
  {
    !j.JArr? && !j.JObj?
  }

  const Malformed := "Richiesta malformata."
  const NotAList := "La chiave 'documents' deve contenere una lista."
  const BadBody := "Corpo della richiesta non è un JSON valido."

  /**
   * The checks before the loop. `'documents' in data` searches a list's
   * items or a string's text and raises on a number or a boolean; indexing a
   * list or a string by 'documents' raises too; whatever raises is answered
   * as an invalid body.
   */
  function Validate(body: Body): Result<seq<Json>, string>
  {
    match body
    case NotJson => Err(BadBody)
    case Parsed(data) =>
      if !Truthy(data) then Err(Malformed)
      else
        match data
        case JObj(fields) =>
          if "documents" !in fields then Err(Malformed)
          else if fields["documents"].JArr? then Ok(fields["documents"].items)
          else Err(NotAList)
        case JArr(items) => if JStr("documents") !in items then Err(Malformed) else Err(BadBody)
        case JStr(s) => if !Contains(s, "documents") then Err(Malformed) else Err(BadBody)
        case _ => Err(BadBody)
  }

  /** A request passes exactly when it is an object whose 'documents' is a list. */
  lemma ValidateAccepts(body: Body)
    ensures Validate(body).Ok? <==>
      body.Parsed? && body.value.JObj? && "documents" in body.value.fields
      && body.value.fields["documents"].JArr?
    ensures Validate(body).Ok? ==> Validate(body).value == body.value.fields["documents"].items
  {
  }

  /** An empty or false body, or an object without 'documents', is malformed. */
  lemma ValidateMalformed(body: Body)
    requires body.Parsed?
    requires !Truthy(body.value) || (body.value.JObj? && "documents" !in body.value.fields)
    ensures Validate(body) == Err(Malformed)
  {
  }

  /** The body a client sends for `names`: `{"documents": names}`. */
  function Payload(names: seq<string>): Body
  {
    Parsed(JObj(map["documents" := JArr(seq(|names|, i requires 0 <= i < |names| => JStr(names[i])))]))
  }

  /** A client's request passes validation with its names, all of them strings, so the server answers 200. */
  lemma PayloadAccepted(names: seq<string>)
    ensures Validate(Payload(names)).Ok?
    ensures var items := Validate(Payload(names)).value;
      && |items| == |names|
      && forall i :: 0 <= i < |names| ==> items[i] == JStr(names[i]) && Hashable(items[i])
  {
    var fields := Payload(names).value.fields;
    assert "documents" in fields;
  }

  /** What a name in the documents folder is. */
  datatype Entry = RegularFile(contents: Option<seq<byte>>) | Directory

  /**
   * The documents folder: whether it exists, what `os.listdir` gives (`None`
   * when it raises), and what each name in it is.
   */
  datatype Folder = Folder(isDir: bool, listing: Option<seq<string>>, entries: map<string, Entry>)

  /** `os.path.isfile(os.path.join(DOCUMENTS_FOLDER, name))` */
  predicate IsFile(f: Folder, name: string)
  {
    name in f.entries && f.entries[name].RegularFile?
  }

  /** The regular files among `names`, in order. */
  function RegularFiles(f: Folder, names: seq<string>): seq<string>
    decreases |names|
  {
    if names == [] then []
    else
      var last := names[|names| - 1];
      RegularFiles(f, names[..|names| - 1]) + if IsFile(f, last) then [last] else []
  }

  /** The listed regular files are exactly the regular files of the listing, each as often as listed. */
  lemma {:induction false} RegularFilesMembers(f: Folder, names: seq<string>)
    ensures forall n :: n in RegularFiles(f, names) <==> n in names && IsFile(f, n)
    ensures |RegularFiles(f, names)| <= |names|
    decreases |names|
  {
    if names != [] {
      var init := names[..|names| - 1];
      RegularFilesMembers(f, init);
      assert names == init + [names[|names| - 1]];
    }
  }

  /** The answer of `list_files`. */
  datatype Listing = ListError(code: int, message: string) | FileList(files: seq<string>)

  /** `list_files`: 500 without the folder or when it cannot be listed, else its regular files. */
  method ListFiles(f: Folder) returns (r: Listing)
    ensures !f.isDir ==> r == ListError(500, "La cartella 'documents' non esiste sul server.")
    ensures f.isDir && f.listing.None? ==>
      r == ListError(500, "Errore interno del server durante l'accesso ai file.")
    ensures f.isDir && f.listing.Some? ==> r == FileList(RegularFiles(f, f.listing.value))
  {
    if !f.isDir {
      return ListError(500, "La cartella 'documents' non esiste sul server.");
    }
    match f.listing {
      case None =>
        return ListError(500, "Errore interno del server durante l'accesso ai file.");
      case Some(names) =>
        var files: seq<string> := [];
        for i := 0 to |names|
          invariant files == RegularFiles(f, names[..i])
        {
          assert names[..i + 1][..i] == names[..i];
          if IsFile(f, names[i]) {
            files := files + [names[i]];
          }
        }
        assert names[..|names|] == names;
        return FileList(files);
    }
  }

  /** One file of the answer: its MIME type and its bytes. */
  datatype Document = Document(mimeType: string, data: seq<byte>)

  /** What one requested name comes to. */
  datatype Outcome = InvalidName | NotFound | ReadFailed | Found(doc: Document)

  /** `mimetypes.guess_type`, with raw bytes when it has no answer. */
  function MimeOrDefault(guessed: Option<string>): string
  {
    match guessed case None => "application/octet-stream" case Some(m) => m
  }

  /** The body of `get_documents`' loop for one name. */
  function Classify(name: Json, f: Folder, guess: string -> Option<string>): (o: Outcome)
    ensures o.Found? ==>
      && name.JStr? && IsFile(f, name.s)
      && o.doc.mimeType == MimeOrDefault(guess(name.s))
      && Some(o.doc.data) == f.entries[name.s].contents
  {
    if !name.JStr? || '/' in name.s || '\\' in name.s then InvalidName
    else if !IsFile(f, name.s) then NotFound
    else
      match f.entries[name.s].contents
      case None => ReadFailed
      case Some(bytes) => Found(Document(MimeOrDefault(guess(name.s)), bytes))
  }

  function ErrorMessage(o: Outcome): string
  {
    match o
    case InvalidName => "Nome file non valido."
    case NotFound => "File non trovato."
    case ReadFailed => "Errore interno durante la lettura del file."
    case Found(_) => ""
  }

  /** The strings among the requested names. */
  function StringNames(names: seq<Json>): set<string>
  {
    set k | k in names && k.JStr? :: k.s
  }

  /** The `files` map after the loop. */
  function FilesOf(names: seq<Json>, f: Folder, guess: string -> Option<string>): map<string, Document>
  {
    map n | n in StringNames(names) && Classify(JStr(n), f, guess).Found? :: Classify(JStr(n), f, guess).doc
  }

  /** The `errors` map after the loop. */
  function ErrorsOf(names: seq<Json>, f: Folder, guess: string -> Option<string>): map<Json, string>
  {
    map k | k in names && !Classify(k, f, guess).Found? :: ErrorMessage(Classify(k, f, guess))
  }

  /** The final status: errors make it partial, or an error when nothing was found. */
  function Status(found: map<string, Document>, errors: map<Json, string>): string
  {
    if errors == map[] then "success" else if found != map[] then "partial_success" else "error"
  }

  /** The classes of dict key Python can order among themselves: `None`, numbers (a bool is an int), strings. */
  function KeyClass(k: Json): nat
  {
    match k
    case JNull => 0
    case JBool(_) => 1
    case JInt(_) => 1
    case JStr(_) => 2
    case _ => 3
  }

  /**
   * `jsonify` sorts the keys of every dict it writes (Flask's `sort_keys`);
   * two keys of different classes (`None < "a"`, `1 < "a"`) make the sort
   * raise `TypeError`.
   */
  predicate Sortable(keys: set<Json>)
  {
    forall a, b :: a in keys && b in keys ==> KeyClass(a) == KeyClass(b)
  }

  /** The answer of `get_documents`. */
  datatype Reply =
    | Rejected(code: int, message: string)
    | Batch(status: string, files: map<string, Document>, errors: map<Json, string>)
    | Crashed

  /** The HTTP status code of an answer; an escaping exception is Flask's 500. */
  function Code(r: Reply): int
  {
    match r
    case Rejected(code, _) => code
    case Batch(_, _, _) => 200
    case Crashed => 500
  }

  /**
   * `get_documents`: a request that fails validation gets 400 and its
   * message; otherwise every name is classified. A name that cannot be a
   * dict key (a list or an object) makes the error assignment raise, and
   * error keys of two classes make `jsonify` raise; Flask answers 500 to
   * both. Otherwise the answer is 200.
   */
  method GetDocuments(body: Body, f: Folder, guess: string -> Option<string>) returns (reply: Reply)
    ensures Validate(body).Err? ==> reply == Rejected(400, Validate(body).error)
    ensures Validate(body).Ok? ==>
      var names := Validate(body).value;
      if exists k :: k in names && !Hashable(k) then reply == Crashed
      else
        var files := FilesOf(names, f, guess);
        var errors := ErrorsOf(names, f, guess);
        if !Sortable(errors.Keys) then reply == Crashed
        else reply == Batch(Status(files, errors), files, errors)
  {
    var validated := Validate(body);
    if validated.Err? {
      return Rejected(400, validated.error);
    }
    var names := validated.value;
    var ok, files, errors, foundAny := ClassifyAll(names, f, guess);
    if !ok || !Sortable(errors.Keys) {
      return Crashed;
    }
    var status := if errors == map[] then "success" else if foundAny then "partial_success" else "error";
    return Batch(status, files, errors);
  }

  /**
   * The loop over the requested names: each found document goes into
   * `files` under its name, each failure into `errors` under the name as
   * sent; `ok` is false when a failing name cannot be a dictionary key,
   * which ends the request with an exception.
   */
  method ClassifyAll(names: seq<Json>, f: Folder, guess: string -> Option<string>)
    returns (ok: bool, files: map<string, Document>, errors: map<Json, string>, foundAny: bool)
    ensures ok <==> forall k :: k in names ==> Hashable(k)
    ensures ok ==> files == FilesOf(names, f, guess) && errors == ErrorsOf(names, f, guess)
    ensures ok ==> (foundAny <==> files != map[])
  {
    files, errors, foundAny := map[], map[], false;
    for i := 0 to |names|
      invariant files == FilesOf(names[..i], f, guess)
      invariant errors == ErrorsOf(names[..i], f, guess)
      invariant foundAny <==> files != map[]
      invariant forall j :: 0 <= j < i ==> Hashable(names[j])
    {
      var name := names[i];
      var outcome := Classify(name, f, guess);
      assert names[..i + 1] == names[..i] + [name];
      Extend(names[..i], name, f, guess);
      if outcome.Found? {
        files := files[name.s := outcome.doc];
        assert name.s in files;
        foundAny := true;
      } else {
        if !Hashable(name) {
          return false, files, errors, foundAny;
        }
        errors := errors[name := ErrorMessage(outcome)];
      }
    }
    assert names[..|names|] == names;
    ok := true;
  }

  /** One more name adds its own entry to one of the two maps and leaves the other as it was. */
  lemma Extend(done: seq<Json>, name: Json, f: Folder, guess: string -> Option<string>)
    ensures var o := Classify(name, f, guess);
      if o.Found? then
        && FilesOf(done + [name], f, guess) == FilesOf(done, f, guess)[name.s := o.doc]
        && ErrorsOf(done + [name], f, guess) == ErrorsOf(done, f, guess)
      else
        && FilesOf(done + [name], f, guess) == FilesOf(done, f, guess)
        && ErrorsOf(done + [name], f, guess) == ErrorsOf(done, f, guess)[name := ErrorMessage(o)]
  {
    var o := Classify(name, f, guess);
    if o.Found? {
      assert StringNames(done + [name]) == StringNames(done) + {name.s};
    } else {
      assert StringNames(done + [name]) == StringNames(done) + (if name.JStr? then {name.s} else {});
    }
  }

  /**
   * Every requested name is answered exactly once, in `files` or in
   * `errors`, and nothing else is answered.
   */
  lemma EveryNameAnswered(names: seq<Json>, f: Folder, guess: string -> Option<string>)
    ensures forall k :: k in names ==>
      (k in ErrorsOf(names, f, guess)) != (k.JStr? && k.s in FilesOf(names, f, guess))
    ensures forall k :: k in ErrorsOf(names, f, guess) ==> k in names
    ensures forall n :: n in FilesOf(names, f, guess) ==> JStr(n) in names
  {
  }

  /** A name with a path separator, or one that is not a string, is refused without looking at the folder. */
  lemma SeparatorsRefused(names: seq<Json>, f: Folder, guess: string -> Option<string>, k: Json)
    requires k in names
    requires !k.JStr? || '/' in k.s || '\\' in k.s
    ensures ErrorsOf(names, f, guess)[k] == "Nome file non valido."
  {
  }

  /**
   * A refused `null`, boolean or number beside a string name that is not
   * found leaves `jsonify` keys it cannot sort: `{"documents": [null, "a/b"]}`
   * gets 500.
   */
  lemma MixedErrorKeysUnsortable(names: seq<Json>, f: Folder, guess: string -> Option<string>, k: Json, n: string)
    requires k in names && (k.JNull? || k.JBool? || k.JInt?)
    requires JStr(n) in names && !Classify(JStr(n), f, guess).Found?
    ensures !Sortable(ErrorsOf(names, f, guess).Keys)
  {
    SeparatorsRefused(names, f, guess, k);
    assert KeyClass(k) != KeyClass(JStr(n));
  }

  /** Names that are all strings, as both clients send, always give sortable error keys. */
  lemma StringNamesSortable(names: seq<Json>, f: Folder, guess: string -> Option<string>)
    requires forall k :: k in names ==> k.JStr?
    ensures Sortable(ErrorsOf(names, f, guess).Keys)
  {
    EveryNameAnswered(names, f, guess);
  }

  /** A well-formed name that is not a regular file of the folder is not found. */
  lemma MissingNotFound(names: seq<Json>, f: Folder, guess: string -> Option<string>, n: string)
    requires JStr(n) in names && '/' !in n && '\\' !in n && !IsFile(f, n)
    ensures ErrorsOf(names, f, guess)[JStr(n)] == "File non trovato."
  {
  }

  /**
   * The status is "success" exactly when every name was found, and "error"
   * exactly when some name was asked for and none was found.
   */
  lemma StatusMeaning(names: seq<Json>, f: Folder, guess: string -> Option<string>)
    ensures var s := Status(FilesOf(names, f, guess), ErrorsOf(names, f, guess));
      && (s == "success" <==> forall k :: k in names ==> Classify(k, f, guess).Found?)
      && (s == "error" <==> names != [] && forall k :: k in names ==> !Classify(k, f, guess).Found?)
  {
    var files := FilesOf(names, f, guess);
    var errors := ErrorsOf(names, f, guess);
    forall k | k in names && !Classify(k, f, guess).Found? ensures k in errors {}
    forall k | k in names && Classify(k, f, guess).Found? ensures k.s in files {}
    if names != [] {
      assert names[0] in names;
    }
  }
}
