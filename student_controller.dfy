/** The request handlers of the students API. Each handler validates the
    request, issues at most one database call and answers with a status code and
    a JSON body. The database is not modelled: the handler returns the call it
    would make, and the call's outcome is a parameter. */
module StudentController {
  import opened Js
  import Storage

  /** The JSON-like values a request body field or a database reply can hold.
      Numbers are reals; NaN is not modelled. */
  datatype JsValue =
    | Undefined
    | Null
    | Bool(b: bool)
    | Num(n: real)
    | Str(s: string)
    | Obj(fields: map<string, JsValue>)

  /** JavaScript truthiness. */
  predicate Truthy(v: JsValue)
  {
    match v
    case Undefined => false
    case Null => false
    case Bool(b) => b
    case Num(n) => n != 0.0
    case Str(s) => s != ""
    case Obj(_) => true
  }

  /** `const { key } = body`: a missing field destructures to `undefined`. */
  function Field(body: map<string, JsValue>, key: string): (v: JsValue)
    ensures key !in body ==> v == Undefined
    ensures key in body ==> v == body[key]
  {
    if key in body then body[key] else Undefined
  }

  /** The outcome of the one database call a handler makes. */
  datatype DbReply = DbOk(value: JsValue) | DbFailed(message: string)

  /** The database calls the handlers issue. */
  datatype DbCall =
    | FetchAll
    | FetchById(id: string)
    | Create(data: map<string, JsValue>)
    | Update(id: string, changes: map<string, JsValue>)
    | Delete(id: string)

  /** `res.status(code).json(body)`, `res.json(body)` (200) or
      `res.status(204).send()` (no body). */
  datatype Response = Response(status: nat, body: Option<JsValue>)

  function ErrorBody(message: string): JsValue
  {
    Obj(map["error" := Str(message)])
  }

  /** What a handler does: the database call it issues, if any, and its answer. */
  datatype Outcome = Outcome(call: Option<DbCall>, response: Response)

  /** The shared `catch` of every handler: 500 with the error's message. */
  function Failure(call: DbCall, message: string): (o: Outcome)
    ensures o.call == Some(call) && o.response == Response(500, Some(ErrorBody(message)))
  {
    Outcome(Some(call), Response(500, Some(ErrorBody(message))))
  }

  /** `listStudents`. */
  function ListStudents(db: DbReply): (o: Outcome)
    ensures o.call == Some(FetchAll)
    ensures db.DbOk? ==> o.response == Response(200, Some(db.value))
    ensures db.DbFailed? ==> o.response == Response(500, Some(ErrorBody(db.message)))
  {
    match db
    case DbOk(students) => Outcome(Some(FetchAll), Response(200, Some(students)))
    case DbFailed(msg) => Failure(FetchAll, msg)
  }

  const NotFoundMessage: string := "Student not found"

  /** `getStudentById`: 404 when the lookup yields a falsy value. */
  function GetStudentById(id: string, db: DbReply): (o: Outcome)
    ensures o.call == Some(FetchById(id))
    ensures db.DbOk? && !Truthy(db.value) ==> o.response == Response(404, Some(ErrorBody(NotFoundMessage)))
    ensures db.DbOk? && Truthy(db.value) ==> o.response == Response(200, Some(db.value))
    ensures db.DbFailed? ==> o.response == Response(500, Some(ErrorBody(db.message)))
  {
    match db
    case DbOk(student) =>
      if !Truthy(student) then Outcome(Some(FetchById(id)), Response(404, Some(ErrorBody(NotFoundMessage))))
      else Outcome(Some(FetchById(id)), Response(200, Some(student)))
    case DbFailed(msg) => Failure(FetchById(id), msg)
  }

  // ---------------------------------------------------------------------------
  // createStudent
  // ---------------------------------------------------------------------------

  const RequiredMessage: string := "name, email, and cardUID are required"

  /** The guard of `createStudent`: all three identifying fields are truthy. */
  predicate HasRequiredFields(body: map<string, JsValue>)
  {
    Truthy(Field(body, "name")) && Truthy(Field(body, "email")) && Truthy(Field(body, "cardUID"))
  }

  /** `createStudent`. `studentData` is built and then, when a file came with
      the request and its upload succeeded, extended with `photoURL`; a failed
      upload is swallowed. Returns whether the upload was attempted, the
      database call and the response. */
  method CreateStudent(body: map<string, JsValue>, file: Option<Storage.UploadedFile>,
                       supabaseUrl: string, now: nat, storage: Storage.StorageReply, db: DbReply)
    returns (uploadAttempted: bool, o: Outcome)
    ensures !HasRequiredFields(body) ==>
      !uploadAttempted && o == Outcome(None, Response(400, Some(ErrorBody(RequiredMessage))))
    ensures HasRequiredFields(body) ==> uploadAttempted == file.Some?
    ensures HasRequiredFields(body) ==> o.call.Some? && o.call.value.Create?
    ensures o.call.Some? ==> HasRequiredFields(body)
    ensures o.call.Some? && o.call.value.Create? ==>
      var data := o.call.value.data;
      && data.Keys == {"name", "email", "cardUID", "class"}
                      + (if file.Some? && storage.StorageOk? then {"photoURL"} else {})
      && data["name"] == body["name"] && data["email"] == body["email"] && data["cardUID"] == body["cardUID"]
      && data["class"] == (if Truthy(Field(body, "class")) then body["class"] else Null)
      && ("photoURL" in data ==>
            data["photoURL"] == Str(Storage.PublicUrl(supabaseUrl, Storage.UploadPath(now, file.value.originalname))))
    ensures HasRequiredFields(body) && db.DbOk? ==> o.response == Response(201, Some(db.value))
    ensures HasRequiredFields(body) && db.DbFailed? ==> o.response == Response(500, Some(ErrorBody(db.message)))
  {
    uploadAttempted := false;
    var name, email, cardUID, studentClass :=
      Field(body, "name"), Field(body, "email"), Field(body, "cardUID"), Field(body, "class");
    if !Truthy(name) || !Truthy(email) || !Truthy(cardUID) {
      return uploadAttempted, Outcome(None, Response(400, Some(ErrorBody(RequiredMessage))));
    }
    var studentData: map<string, JsValue> := map[
      "name" := name,
      "email" := email,
      "cardUID" := cardUID,
      "class" := if Truthy(studentClass) then studentClass else Null
    ];
    if file.Some? {
      uploadAttempted := true;
      var uploaded := Storage.UploadStudentPhoto(supabaseUrl, now, file.value, storage);
      match uploaded.result {
        case Ok(url) =>
          studentData := studentData["photoURL" := Str(url)];
        case Failed(_) =>
      }
    }
    match db {
      case DbOk(student) =>
        o := Outcome(Some(Create(studentData)), Response(201, Some(student)));
      case DbFailed(msg) =>
        o := Failure(Create(studentData), msg);
    }
  }

  // ---------------------------------------------------------------------------
  // The two PATCH handlers and DELETE
  // ---------------------------------------------------------------------------

  const HasPaidMessage: string := "hasPaid must be a boolean"
  const CardStatusMessage: string := "cardStatus must be active or blocked"

  /** `updatePaymentStatus`. */
  function UpdatePaymentStatus(id: string, body: map<string, JsValue>, db: DbReply): (o: Outcome)
    ensures !Field(body, "hasPaid").Bool? <==> o == Outcome(None, Response(400, Some(ErrorBody(HasPaidMessage))))
    ensures Field(body, "hasPaid").Bool? ==> o.call == Some(Update(id, map["hasPaid" := body["hasPaid"]]))
    ensures Field(body, "hasPaid").Bool? && db.DbOk? ==> o.response == Response(200, Some(db.value))
    ensures Field(body, "hasPaid").Bool? && db.DbFailed? ==> o.response == Response(500, Some(ErrorBody(db.message)))
  {
    var hasPaid := Field(body, "hasPaid");
    if !hasPaid.Bool? then Outcome(None, Response(400, Some(ErrorBody(HasPaidMessage))))
    else
      var call := Update(id, map["hasPaid" := hasPaid]);
      match db
      case DbOk(student) => Outcome(Some(call), Response(200, Some(student)))
      case DbFailed(msg) => Failure(call, msg)
  }

  /** `['active', 'blocked'].includes(cardStatus)`: strict equality, so only
      those two exact strings pass. */
  predicate IsCardStatus(v: JsValue)
  {
    v == Str("active") || v == Str("blocked")
  }

  /** `updateCardStatus`. */
  function UpdateCardStatus(id: string, body: map<string, JsValue>, db: DbReply): (o: Outcome)
    ensures !IsCardStatus(Field(body, "cardStatus")) <==> o == Outcome(None, Response(400, Some(ErrorBody(CardStatusMessage))))
    ensures IsCardStatus(Field(body, "cardStatus")) ==> o.call == Some(Update(id, map["cardStatus" := body["cardStatus"]]))
    ensures IsCardStatus(Field(body, "cardStatus")) && db.DbOk? ==> o.response == Response(200, Some(db.value))
    ensures IsCardStatus(Field(body, "cardStatus")) && db.DbFailed? ==> o.response == Response(500, Some(ErrorBody(db.message)))
  {
    var cardStatus := Field(body, "cardStatus");
    if !IsCardStatus(cardStatus) then Outcome(None, Response(400, Some(ErrorBody(CardStatusMessage))))
    else
      var call := Update(id, map["cardStatus" := cardStatus]);
      match db
      case DbOk(student) => Outcome(Some(call), Response(200, Some(student)))
      case DbFailed(msg) => Failure(call, msg)
  }

  /** `deleteStudent`: 204 with no body once the call returns. */
  function DeleteStudent(id: string, db: DbReply): (o: Outcome)
    ensures o.call == Some(Delete(id))
    ensures db.DbOk? <==> o.response == Response(204, None)
    ensures db.DbFailed? ==> o.response == Response(500, Some(ErrorBody(db.message)))
  {
    match db
    case DbOk(_) => Outcome(Some(Delete(id)), Response(204, None))
    case DbFailed(msg) => Failure(Delete(id), msg)
  }

  // ---------------------------------------------------------------------------
  // Properties across the handlers
  // ---------------------------------------------------------------------------

  /** A rejected request never reaches the database, so its answer does not
      depend on what the database would have said. */
  lemma RejectionIgnoresDatabase(id: string, body: map<string, JsValue>, db1: DbReply, db2: DbReply)
    ensures !Field(body, "hasPaid").Bool? ==>
      UpdatePaymentStatus(id, body, db1) == UpdatePaymentStatus(id, body, db2)
    ensures !IsCardStatus(Field(body, "cardStatus")) ==>
      UpdateCardStatus(id, body, db1) == UpdateCardStatus(id, body, db2)
  {
  }

  /** The two PATCH handlers send exactly one field, whatever else the body
      holds. */
  lemma PatchSendsOneField(id: string, body: map<string, JsValue>, db: DbReply)
    ensures var o := UpdatePaymentStatus(id, body, db);
      o.call.Some? ==> o.call.value.changes.Keys == {"hasPaid"}
    ensures var o := UpdateCardStatus(id, body, db);
      o.call.Some? ==> o.call.value.changes.Keys == {"cardStatus"}
  {
  }

  /** Status codes by handler: every call that reached a failing database is
      answered 500, and only such calls are. */
  lemma FailureIsAlways500(id: string, body: map<string, JsValue>, db: DbReply)
    ensures (ListStudents(db).response.status == 500) <==> db.DbFailed?
    ensures (GetStudentById(id, db).response.status == 500) <==> db.DbFailed?
    ensures (DeleteStudent(id, db).response.status == 500) <==> db.DbFailed?
    ensures var o := UpdatePaymentStatus(id, body, db);
      o.response.status == 500 <==> o.call.Some? && db.DbFailed?
    ensures var o := UpdateCardStatus(id, body, db);
      o.response.status == 500 <==> o.call.Some? && db.DbFailed?
  {
  }

  /** A multipart form whose e-mail is the empty string is refused with 400
      before anything is uploaded or inserted. */
  method EmptyEmailIsRefused() returns (uploaded: bool, o: Outcome)
    ensures !uploaded && o.response.status == 400 && o.call.None?
  {
    var form := map["name" := Str("Ann"), "email" := Str(""), "cardUID" := Str("RFID7")];
    assert !HasRequiredFields(form);
    uploaded, o := CreateStudent(form, None, "https://x.supabase.co", 0, Storage.StorageOk, DbOk(Null));
  }

  /** A complete form whose `class` is `""` is inserted with a null class, and
      a photo whose upload fails leaves the row without `photoURL` while the
      response is still 201. */
  method EmptyClassIsStoredAsNull() returns (uploaded: bool, o: Outcome)
    ensures uploaded && o.response.status == 201 && o.call.Some? && o.call.value.Create?
    ensures "class" in o.call.value.data && o.call.value.data["class"] == Null
    ensures "photoURL" !in o.call.value.data
  {
    var form := map["name" := Str("Ann"), "email" := Str("a@b.cd"), "cardUID" := Str("RFID7"), "class" := Str("")];
    var file := Storage.UploadedFile("ann.png", "image/png", 10);
    assert HasRequiredFields(form);
    uploaded, o := CreateStudent(form, Some(file), "https://x.supabase.co", 0, Storage.StorageError("bucket full"), DbOk(Obj(map[])));
  }
}
