/**
 The parts of net/http and of the HTTP helper package that the blob-server
 client uses: header maps, status codes, and a description of the request it
 asks the helper to send.
 */
module Http {
  import opened Wrappers

  type Bytes = seq<bv8>

  /** `http.Header`: each canonical key maps to the list of its values. */
  type Header = map<string, seq<string>>

  /** `Header.Get`: the first value stored under `key`, or "" when there is none. */
  function HeaderValue(h: Header, key: string): (v: string)
    ensures key in h && |h[key]| > 0 ==> v == h[key][0]
    ensures v != "" ==> key in h && v in h[key]
  {
    if key in h && |h[key]| > 0 then h[key][0] else ""
  }

  const StatusCreated: int := 201
  const StatusAccepted: int := 202
  const StatusTemporaryRedirect: int := 307

  /** The helper entry point used, one per HTTP verb. */
  datatype Method = Head | Get | Post | Patch | Put | Delete

  /** The status codes the helper treats as success. */
  datatype AcceptedCodes =
    | DefaultCodes          // no `SendAcceptedCodes` option: the helper's default
    | Codes(codes: set<int>) // `SendAcceptedCodes(codes...)`

  /** One call of the helper: verb, URL and the options passed with it. */
  datatype Request = Request(
    verb: Method,
    url: string,
    headers: map<string, string>, // `SendHeaders`
    body: Option<Bytes>,          // `SendBody`
    accepted: AcceptedCodes)

  /** A response the helper accepted. */
  datatype Response = Response(header: Header, body: Bytes)
}
