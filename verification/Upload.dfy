/** The writer that uploads scan results in chunks: its buffer, its scan identifier and its requests.
    What the server answers is a parameter of every upload; `max` is the largest chunk size. */
module Upload {

  datatype Option<T> = None | Some(value: T)

  const UPLOAD_ENDPOINT := "/v1/scans/import"

  function AppendEndpoint(id: string): string { "/v1/scans/" + id + "/import" }

  /** A request: POST creates a scan, PATCH appends to one; `name` is its query parameter. */
  datatype Request = Request(post: bool, path: string, name: Option<string>, body: string)

  /** How an upload went: no request, no connection, no body, or a reply with a status and, if its
      body could be decoded, an identifier. */
  datatype Response = NoRequest | NoConnection | NoBody | Replied(status: nat, id: Option<string>)

  datatype Attempt = Attempt(request: Request, response: Response)

  const STATUS_OK := 200

  predicate Succeeds(r: Response) { r.Replied? && r.status == STATUS_OK && r.id.Some? }

  /** The state of a writer, and the uploads it attempted so far. */
  datatype Writer = Writer(scanID: string, buffer: string, log: seq<Attempt>)

  function RequestFor(scanID: string, scanName: string, body: string): Request {
    if scanID == "" then Request(true, UPLOAD_ENDPOINT, if scanName == "" then None else Some(scanName), body)
    else Request(false, AppendEndpoint(scanID), None, body)
  }

  function NextID(scanID: string, r: Response): string {
    if Succeeds(r) && scanID == "" then r.id.value else scanID
  }

  function Flushed(w: Writer, scanName: string, r: Response): Writer {
    Writer(NextID(w.scanID, r), if Succeeds(r) then "" else w.buffer,
           w.log + [Attempt(RequestFor(w.scanID, scanName, w.buffer), r)])
  }

  function FlushedIfAny(w: Writer, scanName: string, r: Response): Writer {
    if w.buffer == "" then w else Flushed(w, scanName, r)
  }

  predicate Fits(w: Writer, max: nat, line: string) { |w.buffer| + |line| <= max }

  function Received(w: Writer, max: nat, scanName: string, line: string, r: Response): Writer {
    if Fits(w, max, line) then w.(buffer := w.buffer + line) else Flushed(w, scanName, r)
  }

  /** What the loop of the writer waits for. */
  datatype Arrival = Line(line: string, r: Response) | Tick(r: Response) | Closed(r: Response) | Cancelled(r: Response)

  /** The writer after a list of arrivals: it stops at the first that ends it. */
  function Committed(w: Writer, max: nat, scanName: string, arrivals: seq<Arrival>): Writer
    decreases |arrivals|
  {
    if arrivals == [] then w
    else match arrivals[0]
      case Line(line, r) => Committed(Received(w, max, scanName, line, r), max, scanName, arrivals[1..])
      case Tick(r) => Committed(FlushedIfAny(w, scanName, r), max, scanName, arrivals[1..])
      case Closed(r) => FlushedIfAny(w, scanName, r)
      case Cancelled(r) => FlushedIfAny(w, scanName, r)
  }

  predicate IsXidChar(c: char) { 'a' <= c <= 'z' || '0' <= c <= '9' }

  /** The accepted scan identifiers: twenty lower-case letters and digits. */
  predicate ValidScanID(id: string) { |id| == 20 && forall c | c in id :: IsXidChar(c) }

  /** An append path is never the upload endpoint, whatever the identifier. */
  lemma EndpointsDiffer(id: string)
    ensures AppendEndpoint(id) != UPLOAD_ENDPOINT
  {
    assert |AppendEndpoint(id)| == |UPLOAD_ENDPOINT| + 1 + |id|;
  }

  class UploadWriter {
    const max: nat
    var scanID: string
    var scanName: string
    var uploadPath: string
    var buffer: string
    ghost var log: seq<Attempt>

    ghost function View(): Writer
      reads this
    {
      Writer(scanID, buffer, log)
    }

    /** A new writer, with the name of the scan that the runner sets before it uses it. */
    constructor (max: nat, scanName: string)
      ensures this.max == max && this.scanName == scanName && View() == Writer("", "", []) && uploadPath == UPLOAD_ENDPOINT
    {
      this.max, this.scanName := max, scanName;
      scanID, uploadPath, buffer := "", UPLOAD_ENDPOINT, "";
      log := [];
    }

    method SetScanID(id: string) returns (ok: bool)
      modifies `scanID
      ensures ok == ValidScanID(id)
      ensures View() == old(View()).(scanID := if ok then id else old(scanID))
    {
      if |id| != 20 { return false; }
      for i := 0 to |id|
        invariant forall c | c in id[..i] :: IsXidChar(c)
      {
        if !IsXidChar(id[i]) { return false; }
      }
      assert id[..|id|] == id;
      scanID := id;
      return true;
    }

    method GetRequest(body: string) returns (request: Request)
      modifies `uploadPath
      ensures request == RequestFor(scanID, scanName, body) && uploadPath == request.path
    {
      var post := false;
      if scanID == "" {
        uploadPath := UPLOAD_ENDPOINT;
        post := true;
      } else {
        uploadPath := AppendEndpoint(scanID);
        EndpointsDiffer(scanID);
      }
      var name: Option<string> := None;
      if scanName != "" && uploadPath == UPLOAD_ENDPOINT {
        name := Some(scanName);
      }
      request := Request(post, uploadPath, name, body);
    }

    method Upload(data: string, r: Response) returns (ok: bool)
      modifies `uploadPath, `scanID, `log
      ensures ok == Succeeds(r) && scanID == NextID(old(scanID), r)
      ensures log == old(log) + [Attempt(RequestFor(old(scanID), scanName, data), r)]
    {
      var request := GetRequest(data);
      log := log + [Attempt(request, r)];
      if r.NoRequest? || r.NoConnection? || r.NoBody? { return false; }
      if r.status != STATUS_OK { return false; }
      if r.id == None { return false; }
      if r.id.value != "" && scanID == "" {
        scanID := r.id.value;
      }
      return true;
    }

    method UploadChunk(r: Response) returns (ok: bool)
      modifies this
      ensures View() == Flushed(old(View()), old(scanName), r) && ok == Succeeds(r) && scanName == old(scanName)
    {
      ok := Upload(buffer, r);
      if ok { buffer := ""; }
    }

    method FlushIfAny(r: Response)
      modifies this
      ensures View() == FlushedIfAny(old(View()), old(scanName), r) && scanName == old(scanName)
    {
      if |buffer| > 0 {
        var ok := UploadChunk(r);
      }
    }

    method ReceiveLine(line: string, r: Response)
      modifies this
      ensures View() == Received(old(View()), max, old(scanName), line, r) && scanName == old(scanName)
    {
      if |buffer| + |line| > max {
        var ok := UploadChunk(r);
      } else {
        buffer := buffer + line;
      }
    }

    /** The loop of the writer, on what it happens to receive. */
    method AutoCommit(arrivals: seq<Arrival>)
      modifies this
      ensures View() == Committed(old(View()), max, old(scanName), arrivals)
    {
      for i := 0 to |arrivals|
        invariant Committed(View(), max, scanName, arrivals[i..]) == Committed(old(View()), max, old(scanName), arrivals)
        invariant scanName == old(scanName)
      {
        assert arrivals[i..][1..] == arrivals[i + 1..];
        match arrivals[i] {
          case Line(line, r) => ReceiveLine(line, r);
          case Tick(r) => FlushIfAny(r);
          case Closed(r) => FlushIfAny(r); return;
          case Cancelled(r) => FlushIfAny(r); return;
        }
      }
    }
  }
}
