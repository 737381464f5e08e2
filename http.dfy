/**
 * `HttpStore` (src/store/http.rs): objects are resources at
 * `<host>/<filename>`, read with GET and written with PUT. The HTTP client
 * is a function from request to outcome.
 */
module Http {
  import opened Wrappers
  import opened Bytes
  import opened StoreInterface

  /** The two requests the store sends: a GET of a URL, and a PUT of a body to a URL. */
  datatype HttpRequest = GetReq(url: string) | PutReq(url: string, body: seq<uint8>)

  /** A delivered response: its status and the outcome of reading its body. */
  datatype HttpResponse = HttpResponse(status: int, body: Result<seq<uint8>, ReqwestError>)

  /** What sending a request gives: a response, or a transport error. */
  type Client = HttpRequest -> Result<HttpResponse, ReqwestError>

  /** `StatusCode::is_success`: 200 to 299. */
  predicate IsSuccess(status: int) {
    200 <= status <= 299
  }

  datatype HttpStore = HttpStore(host: string) {

    /** `format!("{}/{}", host, filename)`: the host, one separator, then the filename. */
    function UrlOf(filename: string): (url: string)
      ensures |url| == |host| + 1 + |filename|
      ensures url[..|host|] == host && url[|host|] == '/' && url[|host| + 1..] == filename
    {
      var url := host + "/" + filename;
      assert url[..|host|] == host && url[|host| + 1..] == filename;
      url
    }

    /**
     * `get_object`: a success status with a readable body is the body; any
     * other status is absence; a transport or body-read error is
     * `Err(Reqwest(e))`.
     */
    function GetObject(client: Client, filename: string): (r: Result<Option<seq<uint8>>, StoreError>)
      ensures var sent := client(GetReq(UrlOf(filename)));
        && (r.Ok? && r.value.Some? <==> sent.Ok? && IsSuccess(sent.value.status) && sent.value.body.Ok?)
        && (r.Ok? && r.value.Some? ==> r.value.value == sent.value.body.value)
        && (r == Ok(None) <==> sent.Ok? && !IsSuccess(sent.value.status))
        && (sent.Err? ==> r == Err(Reqwest(sent.error)))
        && (sent.Ok? && IsSuccess(sent.value.status) && sent.value.body.Err? ==> r == Err(Reqwest(sent.value.body.error)))
    {
      match client(GetReq(UrlOf(filename)))
      case Ok(response) =>
        if IsSuccess(response.status) then
          match response.body
          case Ok(content) => Ok(Some(content))
          case Err(e) => Err(Reqwest(e))
        else Ok(None)
      case Err(e) => Err(Reqwest(e))
    }

    /**
     * `put_object`: PUT the content unchanged as the body; `Ok` whenever the
     * request is delivered, whatever the status; a send failure is
     * `Err(Reqwest(e))`.
     */
    function PutObject(client: Client, filename: string, content: seq<uint8>): (r: Result<(), StoreError>)
      ensures var sent := client(PutReq(UrlOf(filename), content));
        && (r.Ok? <==> sent.Ok?)
        && (sent.Err? ==> r == Err(Reqwest(sent.error)))
    {
      match client(PutReq(UrlOf(filename), content))
      case Ok(_) => Ok(())
      case Err(e) => Err(Reqwest(e))
    }
  }

  /** A server that serves `objects` by URL: 200 with the object, or 404. */
  function ObjectServer(objects: map<string, seq<uint8>>): (client: Client) {
    (request: HttpRequest) =>
      match request
      case GetReq(url) =>
        if url in objects then Ok(HttpResponse(200, Ok(objects[url]))) else Ok(HttpResponse(404, Ok([])))
      case PutReq(_, _) => Ok(HttpResponse(200, Ok([])))
  }

  /** Against a server that answers 200 or 404, `get_object` is the store contract's lookup. */
  lemma GetFromObjectServer(store: HttpStore, objects: map<string, seq<uint8>>, filename: string)
    ensures var url := store.UrlOf(filename);
      store.GetObject(ObjectServer(objects), filename) == Ok(if url in objects then Some(objects[url]) else None)
  {
  }

  /** Within one store, distinct filenames are distinct URLs. */
  lemma UrlInjective(store: HttpStore, f: string, g: string)
    ensures store.UrlOf(f) == store.UrlOf(g) ==> f == g
  {
    var uf, ug := store.UrlOf(f), store.UrlOf(g);
    if uf == ug {
      var n := |store.host| + 1;
      assert f == uf[n..] && g == ug[n..];
    }
  }
}
