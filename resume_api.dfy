/**
 * The `/api/resume` handlers of the server and the two helpers under them,
 * `readData` and `saveData`, over the backing file `resume-data.json`.
 *
 * The file is a field of class Store; each handler is a method that reads it
 * through ReadData, writes it through SaveData, and returns the status and
 * JSON body the handler sends. A ghost counter records how many times the file
 * was written, so that "writes nothing" can be stated.
 */
module ResumeApi {
  import opened Wrappers
  import opened Json
  import opened Merge
  import opened Documents

  /** Why `readData` throws: the read fails, or the text is not JSON. */
  datatype Failure = IOFailure | ParseFailure

  /** The backing file as `readData` finds it. */
  datatype FileState =
    | Missing              // reading fails with ENOENT
    | Unreadable           // reading fails in any other way
    | Corrupt              // reading succeeds, `JSON.parse` throws
    | Holds(doc: Doc)      // the file holds this document

  /** An HTTP status and the JSON body sent with it. */
  datatype Response = Response(status: int, body: Json)

  function ErrorReply(status: int, message: string): Response
  {
    Response(status, JObj(map["error" := JStr(message)]))
  }

  function SuccessReply(message: string): Response
  {
    Response(200, JObj(map["success" := JBool(true), "message" := JStr(message)]))
  }

  /** What every handler's `catch` sends. */
  const InternalError := ErrorReply(500, "Internal server error")

  /** What `readData` returns, or the failure it throws. */
  function Load(f: FileState): (r: Result<Doc, Failure>)
    ensures r.Err? <==> f == Unreadable || f == Corrupt
    ensures f == Missing ==> r == Ok(map[])
  {
    match f
    case Missing => Ok(map[])
    case Unreadable => Err(IOFailure)
    case Corrupt => Err(ParseFailure)
    case Holds(doc) => Ok(doc)
  }

  /** The file after `readData`: a missing file has been created holding `{}`. */
  function AfterLoad(f: FileState): (r: FileState)
    ensures r != Missing
    ensures Load(r) == Load(f)
  {
    if f == Missing then Holds(map[]) else f
  }

  /** The writes `readData` makes: one when it creates the file, none otherwise. */
  function CreationWrites(f: FileState): nat
  {
    if f == Missing then 1 else 0
  }

  /**
   * Lazy creation: a missing file reads as `{}` and is created holding `{}`;
   * reading again returns the same document and creates nothing more; any
   * other failure is passed on to the caller.
   */
  lemma LazyCreation(f: FileState)
    ensures Load(Missing) == Ok(map[]) && AfterLoad(Missing) == Holds(map[])
    ensures Load(AfterLoad(f)) == Load(f)
    ensures AfterLoad(AfterLoad(f)) == AfterLoad(f) && CreationWrites(AfterLoad(f)) == 0
    ensures Load(f).Err? <==> f == Unreadable || f == Corrupt
  {
  }

  /** What `saveData` stores is what the next `readData` returns. */
  lemma SaveThenLoad(doc: Doc)
    ensures Load(Holds(doc)) == Ok(doc) && AfterLoad(Holds(doc)) == Holds(doc)
  {
  }

  class Store {
    /** The contents of `resume-data.json`. */
    var file: FileState
    /** How many times the file has been written. */
    ghost var writes: nat

    constructor (initial: FileState)
      ensures file == initial && writes == 0
    {
      file := initial;
      writes := 0;
    }

    /** `readData`. */
    method ReadData() returns (r: Result<Doc, Failure>)
      modifies this
      ensures r == Load(old(file))
      ensures file == AfterLoad(old(file))
      ensures writes == old(writes) + CreationWrites(old(file))
    {
      match file {
        case Missing =>
          file := Holds(map[]);
          writes := writes + 1;
          r := Ok(map[]);
        case Unreadable =>
          r := Err(IOFailure);
        case Corrupt =>
          r := Err(ParseFailure);
        case Holds(doc) =>
          r := Ok(doc);
      }
    }

    /** `saveData`: the file is overwritten with the document, whatever it held. */
    method SaveData(doc: Doc)
      modifies this
      ensures file == Holds(doc)
      ensures writes == old(writes) + 1
    {
      file := Holds(doc);
      writes := writes + 1;
    }

    /** GET /api/resume. */
    method GetAll() returns (resp: Response)
      modifies this
      ensures file == AfterLoad(old(file))
      ensures writes == old(writes) + CreationWrites(old(file))
      ensures resp == match Load(old(file))
        case Ok(doc) => Response(200, JObj(doc))
        case Err(_) => InternalError
    {
      var data := ReadData();
      match data {
        case Ok(doc) => resp := Response(200, JObj(doc));
        case Err(_) => resp := InternalError;
      }
    }

    /** GET /api/resume/:section. */
    method GetSection(section: string) returns (resp: Response)
      modifies this
      ensures file == AfterLoad(old(file))
      ensures writes == old(writes) + CreationWrites(old(file))
      ensures resp == match Load(old(file))
        case Err(_) => InternalError
        case Ok(doc) =>
          if TruthyAt(doc, section) then Response(200, doc[section])
          else ErrorReply(404, "Section not found")
    {
      var data := ReadData();
      match data {
        case Err(_) =>
          resp := InternalError;
        case Ok(doc) =>
          match Section(doc, section) {
            case None => resp := ErrorReply(404, "Section not found");
            case Some(content) => resp := Response(200, content);
          }
      }
    }

    /** POST /api/resume: top-level add or overwrite. */
    method Post(body: Doc) returns (resp: Response)
      modifies this
      ensures Load(old(file)).Err? ==>
        resp == InternalError && file == old(file) && writes == old(writes)
      ensures Load(old(file)).Ok? && |body| == 0 ==>
        && resp == ErrorReply(400, "No data provided")
        && file == AfterLoad(old(file))
        && writes == old(writes) + CreationWrites(old(file))
      ensures Load(old(file)).Ok? && |body| != 0 ==>
        && resp == SuccessReply("Data added successfully")
        && file == Holds(AddSections(Load(old(file)).value, body))
        && writes == old(writes) + CreationWrites(old(file)) + 1
    {
      var data := ReadData();
      if data.Err? {
        return InternalError;
      }
      if |body| == 0 {
        return ErrorReply(400, "No data provided");
      }
      SaveData(AddSections(data.value, body));
      resp := SuccessReply("Data added successfully");
    }

    /** PUT /api/resume: full replace; the file is not read first. */
    method Put(body: Doc) returns (resp: Response)
      modifies this
      ensures !HasRequiredFields(body) ==>
        resp == ErrorReply(400, "Required fields missing") && file == old(file) && writes == old(writes)
      ensures HasRequiredFields(body) ==>
        resp == SuccessReply("Data replaced successfully") && file == Holds(body) && writes == old(writes) + 1
    {
      if !HasRequiredFields(body) {
        return ErrorReply(400, "Required fields missing");
      }
      SaveData(body);
      resp := SuccessReply("Data replaced successfully");
    }

    /** PATCH /api/resume: deep merge of the body into the document. */
    method Patch(body: Doc) returns (resp: Response)
      modifies this
      ensures Load(old(file)).Err? ==>
        resp == InternalError && file == old(file) && writes == old(writes)
      ensures Load(old(file)).Ok? && |body| == 0 ==>
        && resp == ErrorReply(400, "No update data provided")
        && file == AfterLoad(old(file))
        && writes == old(writes) + CreationWrites(old(file))
      ensures Load(old(file)).Ok? && |body| != 0 ==>
        && resp == SuccessReply("Data updated successfully")
        && file == Holds(MergeFields(Load(old(file)).value, body))
        && writes == old(writes) + CreationWrites(old(file)) + 1
    {
      var data := ReadData();
      if data.Err? {
        return InternalError;
      }
      if |body| == 0 {
        return ErrorReply(400, "No update data provided");
      }
      var merged := DeepMerge(JObj(data.value), body);
      SaveData(merged.fields);
      resp := SuccessReply("Data updated successfully");
    }

    /** DELETE /api/resume/:section. */
    method Delete(section: string) returns (resp: Response)
      modifies this
      ensures Load(old(file)).Err? ==>
        resp == InternalError && file == old(file) && writes == old(writes)
      ensures Load(old(file)).Ok? && !TruthyAt(Load(old(file)).value, section) ==>
        && resp == ErrorReply(404, "Section not found")
        && file == AfterLoad(old(file))
        && writes == old(writes) + CreationWrites(old(file))
      ensures Load(old(file)).Ok? && TruthyAt(Load(old(file)).value, section) ==>
        && resp == SuccessReply("Section '" + section + "' deleted")
        && file == Holds(RemoveSection(Load(old(file)).value, section))
        && writes == old(writes) + 1
    {
      var data := ReadData();
      if data.Err? {
        return InternalError;
      }
      if Section(data.value, section).None? {
        return ErrorReply(404, "Section not found");
      }
      SaveData(RemoveSection(data.value, section));
      resp := SuccessReply("Section '" + section + "' deleted");
    }
  }
}
