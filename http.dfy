/** The HTTP side of a lookup. The transfer itself (libcurl) and the JSON
    decoder (jansson) are not modelled: a request is summed up by the
    `Reply` it gets. What is modelled is the buffer that libcurl's write
    callback grows while a body arrives. */
module Http {
  import opened CStrings
  import opened Json

  /** How one request ended, as the lookup that issued it sees it. */
  datatype Reply =
    | NoHandle          // `curl_easy_init` returned NULL
    | TransportFailure  // `curl_easy_perform` did not return CURLE_OK
    | ParseFailure      // `json_loads` returned NULL: malformed or empty body
    | Parsed(root: Json)

  /** The services as one run of the program meets them: the reply that a
      request for each URL gets. */
  type Network = seq<byte> -> Reply

  /** `HTTPResponse`: the body received so far, NUL-terminated once anything
      has arrived. */
  class Response {
    var data: array?<byte>
    var size: nat

    ghost predicate Valid()
      reads this, data
    {
      && (data == null ==> size == 0)
      && (data != null ==> data.Length == size + 1 && data[size] == NUL)
    }

    /** The bytes received so far. */
    function Body(): seq<byte>
      reads this, data
      requires Valid()
    {
      if data == null then [] else data[..size]
    }

    /** `HTTPResponse response = {NULL, 0};` */
    constructor ()
      ensures Valid() && data == null && size == 0 && Body() == []
    {
      data := null;
      size := 0;
    }

    /** `write_callback(contents, elemSize, nmemb, this)`: grow the buffer with
        `realloc` to hold the `elemSize * nmemb` new bytes and a NUL, append
        them, and report them consumed. `reallocSucceeds` is whether `realloc`
        found the memory; when it did not, nothing changes and 0 is returned,
        which makes libcurl abort the transfer. */
    method WriteCallback(contents: seq<byte>, elemSize: nat, nmemb: nat, reallocSucceeds: bool)
      returns (consumed: nat)
      requires Valid() && |contents| == elemSize * nmemb
      modifies this
      ensures Valid()
      ensures reallocSucceeds ==>
        && consumed == elemSize * nmemb
        && size == old(size) + elemSize * nmemb
        && Body() == old(Body()) + contents
        && data != null && data[size] == NUL
        && fresh(data)
      ensures !reallocSucceeds ==>
        consumed == 0 && data == old(data) && size == old(size) && Body() == old(Body())
    {
      var realsize := elemSize * nmemb;
      if !reallocSucceeds {
        return 0;
      }
      var ptr := new byte[size + realsize + 1];
      var i := 0;
      while i < size
        invariant size == old(size) && data == old(data) && Valid()
        invariant ptr.Length == size + realsize + 1 && i <= size
        invariant forall k :: 0 <= k < i ==> ptr[k] == data[k]
      {
        ptr[i] := data[i];
        i := i + 1;
      }
      var j := 0;
      while j < realsize
        invariant size == old(size) && data == old(data)
        invariant ptr.Length == size + realsize + 1 && j <= realsize
        invariant forall k :: 0 <= k < size ==> ptr[k] == old(Body())[k]
        invariant forall k :: 0 <= k < j ==> ptr[size + k] == contents[k]
      {
        ptr[size + j] := contents[j];
        j := j + 1;
      }
      data := ptr;
      size := size + realsize;
      data[size] := NUL;
      assert data[..size] == old(Body()) + contents;
      consumed := realsize;
    }
  }
}
