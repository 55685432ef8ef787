/** The durable store for the Telegram cursor's committed floor: one JSON document
    `{"version": 1, "committed_floor": n}` at a fixed path.

    The file at that path is modelled as an optional content value; the JSON text
    layer (`json.dumps`/`json.loads`) is abstracted to the decoded value, and the
    temp-file-then-replace write is a single update of that value. */
module CursorState {
  import opened Wrappers
  import Text
  import opened JsonValue
  import Numbers

  /** A CursorStateError: a kind and a detail, both trimmed, with defaults for blanks. */
  datatype CursorStateError = CursorStateError(kind: string, detail: string)

  const StateError := "state-error"
  const Unknown := "unknown"
  const LoadIo := "state-load-io"
  const LoadJson := "state-load-json"
  const LoadShape := "state-load-shape"
  const LoadFloor := "state-load-floor"
  const SaveFloor := "state-save-floor"
  const SaveIo := "state-save-io"

  const ShapeDetail := "state root must be an object"
  const NotIntegerDetail := "committed_floor must be an integer"
  const NegativeDetail := "committed_floor must be >= 0"

  /** What reading the state file yields when it exists. */
  datatype FileContent =
    | Unreadable(ioError: string)     // read_text raised OSError
    | Malformed(jsonError: string)    // json.loads raised JSONDecodeError
    | Parsed(doc: Json)

  /** The state file: None when it does not exist. */
  type Disk = Option<FileContent>

  /** The result of `save`: the error raised, if any, and the file afterwards. */
  datatype SaveOutcome = SaveOutcome(error: Option<CursorStateError>, disk: Disk)

  /** The detail of a CursorStateError: trimmed, "unknown" when blank. */
  function Detail(detail: string): (d: string)
    ensures !Text.IsBlank(d) && Text.NoEdgeSpace(d)
    ensures Text.IsBlank(detail) ==> d == Unknown
    ensures !Text.IsBlank(detail) ==> d == Text.Strip(detail)
  {
    var d := Text.Strip(detail);
    assert Unknown[0] == 'u' && Unknown[|Unknown| - 1] == 'n';
    if d == "" then Unknown else d
  }

  /** Python's `CursorStateError(kind=..., detail=...)`. */
  function NewError(kind: string, detail: string): (e: CursorStateError)
    ensures !Text.IsBlank(e.kind) && Text.NoEdgeSpace(e.kind)
    ensures !Text.IsBlank(e.detail) && Text.NoEdgeSpace(e.detail)
    ensures Text.IsBlank(kind) ==> e.kind == StateError
    ensures !Text.IsBlank(kind) ==> e.kind == Text.Strip(kind)
    ensures e.detail == Detail(detail)
  {
    var k := Text.Strip(kind);
    assert StateError[0] == 's' && StateError[|StateError| - 1] == 'r';
    CursorStateError(if k == "" then StateError else k, Detail(detail))
  }

  /** `str(error)`. */
  function Message(e: CursorStateError): string {
    e.kind + ": " + e.detail
  }

  /** A kind that is already trimmed and non-empty, as every kind the store raises
      is, is kept unchanged. */
  lemma NormalKindKept(kind: string, detail: string)
    requires |kind| > 0 && Text.NoEdgeSpace(kind)
    ensures NewError(kind, detail) == CursorStateError(kind, Detail(detail))
  {
  }

  /** A detail without edge whitespace is kept as it is. */
  lemma PlainDetail(d: string)
    requires |d| > 0 && !Text.IsSpace(d[0]) && !Text.IsSpace(d[|d| - 1])
    ensures Detail(d) == d
  {
    assert Text.NoEdgeSpace(d);
  }

  /** The store's own details are kept as they are. */
  lemma FixedDetails()
    ensures Detail(ShapeDetail) == ShapeDetail
    ensures Detail(NotIntegerDetail) == NotIntegerDetail
    ensures Detail(NegativeDetail) == NegativeDetail
  {
    PlainDetail(ShapeDetail);
    PlainDetail(NotIntegerDetail);
    PlainDetail(NegativeDetail);
  }

  /** The error the store raises with one of its own kinds. */
  function Raise(kind: string, detail: string): CursorStateError {
    CursorStateError(kind, Detail(detail))
  }

  /** The document `save` writes for a floor. */
  function Document(floor: nat): Json {
    JObject(map["version" := JInt(1), "committed_floor" := JInt(floor)])
  }

  /** `DurableCursorStateStore.load`: the committed floor, None when there is none,
      or the classified error. */
  function Load(disk: Disk): (r: Result<Option<nat>, CursorStateError>)
    ensures disk.None? ==> r == Ok(None)
    ensures disk.Some? && disk.value.Unreadable? ==> r == Err(CursorStateError(LoadIo, Detail(disk.value.ioError)))
    ensures disk.Some? && disk.value.Malformed? ==> r == Err(CursorStateError(LoadJson, Detail(disk.value.jsonError)))
    ensures (disk.Some? && disk.value.Parsed? && !disk.value.doc.JObject?)
            ==> r == Err(CursorStateError(LoadShape, ShapeDetail))
    ensures (disk.Some? && disk.value.Parsed? && disk.value.doc.JObject?
             && Get(disk.value.doc.fields, "committed_floor").JNull?) ==> r == Ok(None)
    ensures (disk.Some? && disk.value.Parsed? && disk.value.doc.JObject?
             && !Get(disk.value.doc.fields, "committed_floor").JNull?)
            ==> match PyIntOfStr(Get(disk.value.doc.fields, "committed_floor"))
                case Some(n) =>
                  if n >= 0 then r == Ok(Some(n))
                  else r == Err(CursorStateError(LoadFloor, NegativeDetail))
                case None => r == Err(CursorStateError(LoadFloor, NotIntegerDetail))
  {
    FixedDetails();
    match disk
    case None => Ok(None)
    case Some(Unreadable(e)) => Err(Raise(LoadIo, e))
    case Some(Malformed(e)) => Err(Raise(LoadJson, e))
    case Some(Parsed(doc)) =>
      if !doc.JObject? then Err(Raise(LoadShape, ShapeDetail))
      else
        var raw := Get(doc.fields, "committed_floor");
        if raw.JNull? then Ok(None)
        else
          match PyIntOfStr(raw)
          case None => Err(Raise(LoadFloor, NotIntegerDetail))
          case Some(n) =>
            if n < 0 then Err(Raise(LoadFloor, NegativeDetail))
            else Ok(Some(n))
  }

  /** `DurableCursorStateStore.save(committed_floor=value)`. `writeError` is the OS
      error the directory creation, temp write or replace raised, if any. */
  function Save(disk: Disk, value: Json, writeError: Option<string>): (o: SaveOutcome)
    // a floor that is not a non-negative integer is rejected and nothing is written
    ensures (PyInt(value).None? || PyInt(value).value < 0)
            ==> o.error.Some? && o.error.value.kind == SaveFloor && o.disk == disk
    ensures PyInt(value).None? ==> o.error == Some(CursorStateError(SaveFloor, NotIntegerDetail))
    ensures PyInt(value).Some? && PyInt(value).value < 0
            ==> o.error == Some(CursorStateError(SaveFloor, NegativeDetail))
    // a failed write leaves the previous document in place
    ensures (PyInt(value).Some? && PyInt(value).value >= 0 && writeError.Some?)
            ==> o.error == Some(CursorStateError(SaveIo, Detail(writeError.value))) && o.disk == disk
    // a successful save writes exactly the versioned document
    ensures o.error.None? <==> PyInt(value).Some? && PyInt(value).value >= 0 && writeError.None?
    ensures o.error.None? ==> o.disk == Some(Parsed(Document(PyInt(value).value)))
  {
    FixedDetails();
    match PyInt(value)
    case None => SaveOutcome(Some(Raise(SaveFloor, NotIntegerDetail)), disk)
    case Some(n) =>
      if n < 0 then SaveOutcome(Some(Raise(SaveFloor, NegativeDetail)), disk)
      else if writeError.Some? then SaveOutcome(Some(Raise(SaveIo, writeError.value)), disk)
      else SaveOutcome(None, Some(Parsed(Document(n))))
  }

  /** Saving any non-negative floor and loading it back yields that floor. */
  lemma SaveThenLoad(disk: Disk, n: nat)
    ensures Save(disk, JInt(n), None).error.None?
    ensures Load(Save(disk, JInt(n), None).disk) == Ok(Some(n))
  {
    var doc := Document(n);
    assert Get(doc.fields, "committed_floor") == JInt(n);
  }

  /** Whatever a load returns after a failed save, it is what it was before. */
  lemma FailedSavePreservesLoad(disk: Disk, value: Json, writeError: Option<string>)
    requires Save(disk, value, writeError).error.Some?
    ensures Load(Save(disk, value, writeError).disk) == Load(disk)
  {
  }

  /** A document with a non-negative integer floor under any representation Python's
      `int(str(x).strip())` accepts loads as that floor. */
  lemma LoadAcceptsStringFloor(fields: map<string, Json>, a: string, n: nat, b: string)
    requires Text.AllSpace(a) && Text.AllSpace(b)
    requires Get(fields, "committed_floor") == JStr(a + Numbers.IntToString(n) + b)
    ensures Load(Some(Parsed(JObject(fields)))) == Ok(Some(n))
  {
    Numbers.PyIntOfTextRoundTrip(a, n, b);
  }
}
