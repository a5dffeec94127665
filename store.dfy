/**
 * The server's mutable state and its route handlers, one atomic step each:
 * the process-wide `storage` list (class Store), one client's session
 * (class Session), the start-up load fallback, the table selection, and the
 * handlers of `/post`, `/table`, `/delete/:id`, `/edit/:id` and `/update/:id`.
 *
 * The durable write of each mutating handler is not modelled as I/O: its
 * outcome is the parameter `writeOk`, and it only chooses the response; the
 * in-memory change stays in place either way.
 */
module Store {
  import opened Records

  /** What `JSON.parse` produced from the data file: an array of records or anything else. */
  datatype Json = JArray(items: seq<Record>) | JOther

  /** Start-up read of the data file: the read or the parse can fail. */
  datatype LoadOutcome = ReadFailed | ParseFailed | Parsed(value: Json)

  /** An HTTP response, with the status and body text each handler sends. */
  datatype Response =
    | Redirect(location: string)
    | JsonMessage(status: nat, message: string)
    | Text(status: nat, body: string)
    | RenderTable(dataArray: seq<Record>)
    | RenderEdit(data: Record)
  {
    /** The HTTP status code the response carries (Express redirects with 302). */
    function Status(): nat
    {
      match this
      case Redirect(_) => 302
      case JsonMessage(status, _) => status
      case Text(status, _) => status
      case RenderTable(_) => 200
      case RenderEdit(_) => 200
    }
  }

  const InternalError: string := "Internal Server Error"
  const ItemNotFound: string := "Item not found"
  const ItemDeleted: string := "Item deleted successfully"
  const RecordNotFound: string := "Record not found"

  /**
   * The initial contents of `storage`: the parsed value when it is an array,
   * otherwise (not an array, unreadable file, malformed JSON) the empty list.
   */
  function InitialStorage(outcome: LoadOutcome): (s: seq<Record>)
    ensures outcome.Parsed? && outcome.value.JArray? ==> s == outcome.value.items
    ensures outcome.ReadFailed? || outcome.ParseFailed? || outcome == Parsed(JOther) ==> s == []
  {
    match outcome
    case Parsed(JArray(items)) => items
    case _ => []
  }

  /** `req.session.submittedData || []`: an absent list reads as empty. */
  function Submitted(data: Option<seq<Record>>): (s: seq<Record>)
    ensures data.Some? ==> s == data.value
    ensures data.None? ==> s == []
  {
    if data.Some? then data.value else []
  }

  /**
   * The records the table view shows: the session's submissions when there
   * are any, otherwise the whole store.
   */
  function TableRows(submitted: Option<seq<Record>>, storage: seq<Record>): (rows: seq<Record>)
    ensures Submitted(submitted) != [] ==> rows == Submitted(submitted)
    ensures Submitted(submitted) == [] ==> rows == storage
  {
    var sessionData := Submitted(submitted);
    if |sessionData| != 0 then sessionData else storage
  }

  /** The process-wide `storage` list, mutated in place by the handlers. */
  class Store {
    var records: seq<Record>

    /** Start-up: load the data file, falling back to an empty list. */
    constructor Load(outcome: LoadOutcome)
      ensures records == InitialStorage(outcome)
    {
      records := InitialStorage(outcome);
    }

    /** `storage.findIndex(item => item.id === id)` as a linear scan. */
    method FindIndex(id: string) returns (i: int)
      ensures -1 <= i < |records|
      ensures i == -1 <==> IdAbsent(records, id)
      ensures 0 <= i ==> HasId(records[i], id) && forall k :: 0 <= k < i ==> !HasId(records[k], id)
      ensures i == FirstMatch(records, id)
    {
      var k := 0;
      while k < |records|
        invariant 0 <= k <= |records|
        invariant forall j :: 0 <= j < k ==> !HasId(records[j], id)
      {
        if HasId(records[k], id) {
          return k;
        }
        k := k + 1;
      }
      return -1;
    }

    /** `storage.find(item => item.id === id)`: the first record carrying `id`. */
    method Find(id: string) returns (r: Option<Record>)
      ensures r.None? <==> IdAbsent(records, id)
      ensures r.Some? ==> 0 <= FirstMatch(records, id) && r.value == records[FirstMatch(records, id)]
      ensures r.Some? ==> HasId(r.value, id)
    {
      var i := FindIndex(id);
      r := if i == -1 then None else Some(records[i]);
    }

    /** `storage.push(r)`. */
    method Push(r: Record)
      modifies this
      ensures records == old(records) + [r]
    {
      records := records + [r];
    }

    /** `storage.splice(i, 1)` at an index the scan found. */
    method Splice(i: nat)
      requires i < |records|
      modifies this
      ensures records == Without(old(records), i)
    {
      records := records[..i] + records[i + 1..];
    }

    /** `storage[i] = r` at an index the scan found. */
    method Put(i: nat, r: Record)
      requires i < |records|
      modifies this
      ensures records == old(records)[i := r]
    {
      records := records[i := r];
    }
  }

  /** One client's session: its submissions (absent until the first) and the last id it edited. */
  class Session {
    var submittedData: Option<seq<Record>>
    var lastEdited: Option<string>

    /** A fresh session holds neither. */
    constructor ()
      ensures submittedData == None && lastEdited == None
    {
      submittedData := None;
      lastEdited := None;
    }

    /** Create the submission list if absent, then append `r` to it. */
    method RecordSubmission(r: Record)
      modifies this
      ensures submittedData == Some(Submitted(old(submittedData)) + [r])
      ensures lastEdited == old(lastEdited)
    {
      if submittedData.None? {
        submittedData := Some([]);
      }
      submittedData := Some(submittedData.value + [r]);
    }

    /** `req.session.lastEdited = id`. */
    method SetLastEdited(id: string)
      modifies this
      ensures lastEdited == Some(id)
      ensures submittedData == old(submittedData)
    {
      lastEdited := Some(id);
    }
  }

  /**
   * POST /post: stamp the body with the generated id `newId`, append it to
   * the store and to the session's submissions, then answer by the write
   * outcome.
   */
  method HandlePost(store: Store, session: Session, body: Record, newId: string, writeOk: bool)
    returns (resp: Response)
    modifies store, session
    ensures store.records == old(store.records) + [WithId(body, newId)]
    ensures session.submittedData == Some(Submitted(old(session.submittedData)) + [WithId(body, newId)])
    ensures session.lastEdited == old(session.lastEdited)
    ensures resp == if writeOk then Redirect("/home") else JsonMessage(500, InternalError)
    ensures resp.Status() == if writeOk then 302 else 500
  {
    var data := WithId(body, newId);
    store.Push(data);
    session.RecordSubmission(data);
    if writeOk {
      resp := Redirect("/home");
    } else {
      resp := JsonMessage(500, InternalError);
    }
  }

  /** GET /table: render the session's submissions, or the whole store when it has none. */
  method HandleTable(store: Store, session: Session) returns (resp: Response)
    ensures resp.RenderTable? && resp.Status() == 200
    ensures Submitted(session.submittedData) != [] ==> resp.dataArray == Submitted(session.submittedData)
    ensures Submitted(session.submittedData) == [] ==> resp.dataArray == store.records
  {
    resp := RenderTable(TableRows(session.submittedData, store.records));
  }

  /**
   * DELETE /delete/:id: 404 when no record carries `id`; otherwise remove the
   * first one that does and answer by the write outcome. The session is not
   * involved.
   */
  method HandleDelete(store: Store, id: string, writeOk: bool) returns (resp: Response)
    modifies store
    ensures IdAbsent(old(store.records), id) ==>
      store.records == old(store.records) && resp == JsonMessage(404, ItemNotFound)
    ensures !IdAbsent(old(store.records), id) ==>
      store.records == Without(old(store.records), FirstMatch(old(store.records), id)) &&
      resp == (if writeOk then JsonMessage(200, ItemDeleted) else JsonMessage(500, InternalError))
    ensures resp.Status() == if IdAbsent(old(store.records), id) then 404 else if writeOk then 200 else 500
  {
    var deleteIndex := store.FindIndex(id);
    if deleteIndex == -1 {
      return JsonMessage(404, ItemNotFound);
    }
    store.Splice(deleteIndex);
    if !writeOk {
      return JsonMessage(500, InternalError);
    }
    resp := JsonMessage(200, ItemDeleted);
  }

  /**
   * GET /edit/:id: remember `id` as last edited, then render the first record
   * carrying it, or 404. The store is only read.
   */
  method HandleEdit(store: Store, session: Session, id: string) returns (resp: Response)
    modifies session
    ensures session.lastEdited == Some(id)
    ensures session.submittedData == old(session.submittedData)
    ensures IdAbsent(store.records, id) ==> resp == Text(404, RecordNotFound)
    ensures !IdAbsent(store.records, id) ==>
      resp == RenderEdit(store.records[FirstMatch(store.records, id)])
    ensures resp.Status() == if IdAbsent(store.records, id) then 404 else 200
  {
    session.SetLastEdited(id);
    var editData := store.Find(id);
    if editData.Some? {
      resp := RenderEdit(editData.value);
    } else {
      resp := Text(404, RecordNotFound);
    }
  }

  /**
   * POST /update/:id: remember `id` as last edited; 404 when no record
   * carries it; otherwise replace the first one that does by its shallow merge
   * with the body and answer by the write outcome.
   */
  method HandleUpdate(store: Store, session: Session, id: string, body: Record, writeOk: bool)
    returns (resp: Response)
    modifies store, session
    ensures session.lastEdited == Some(id)
    ensures session.submittedData == old(session.submittedData)
    ensures IdAbsent(old(store.records), id) ==>
      store.records == old(store.records) && resp == Text(404, RecordNotFound)
    ensures !IdAbsent(old(store.records), id) ==>
      var i := FirstMatch(old(store.records), id);
      store.records == old(store.records)[i := Merge(old(store.records)[i], body)] &&
      resp == (if writeOk then Redirect("/table") else Text(500, InternalError))
    ensures resp.Status() == if IdAbsent(old(store.records), id) then 404 else if writeOk then 302 else 500
  {
    session.SetLastEdited(id);
    var index := store.FindIndex(id);
    if index != -1 {
      store.Put(index, Merge(store.records[index], body));
      if writeOk {
        resp := Redirect("/table");
      } else {
        resp := Text(500, InternalError);
      }
    } else {
      resp := Text(404, RecordNotFound);
    }
  }
}
