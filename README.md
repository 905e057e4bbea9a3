# Origin blob-server HTTP client, modelled in Dafny

This project models the HTTP client of the origin blob server
(`origin/blobserver/client.go`). Container image layers ("blobs", named by
their digest) are stored on origin servers. The client is scoped to one
origin address. For each endpoint it builds one request for the HTTP helper
package and turns the helper's result into its own result. When the origin
answers with a `307 Temporary Redirect`, the client is talking to the wrong
origin. It then reports a redirect error that lists the right origins, taken
from the comma-separated `Origin-Locations` response header.

The code is pure, so the model is pure as well: datatypes, functions and lemmas.

- `wrappers.dfy`: `Option`, where `None` plays Go's `nil`.
- `gostrings.dfy`: Go's `strings.Index`, `strings.Split` (for a non-empty
  separator) and `strings.Join`, plus a character count.
- `decimal.dfy`: Go's `%d` formatting of an integer, and a parser used as
  its inverse.
- `http.dfy`: header maps and `Header.Get` (`HeaderValue`), the status
  codes 201, 202 and 307, and `Request`, a description of one helper call.
  A `Request` holds the verb, the URL, the `SendHeaders` map, the `SendBody`
  payload, and the `SendAcceptedCodes` set.
- `blobserver.dfy`: the client's error values, `maybeRedirect`,
  `newRedirectError`, and `HTTPClient`, modelled as the datatype
  `HttpClient(addr)`. For each endpoint there is one function that builds its
  request (`CheckBlobRequest`, `GetBlobRequest`, `DeleteBlobRequest`,
  `StartUploadRequest`, `PatchUploadRequest`, `CommitUploadRequest`) and one
  function for the endpoint itself. The HTTP helper is a parameter
  `send: Request -> Outcome`, an oracle that answers each request either with
  a response (headers and body) or with an error.

Each function is paired with a reference definition or an inverse:

- `Split` with `Join`: joining a split gives back the string for any non-empty separator, and splitting a join gives back the pieces for a one-character separator such as `","`.
- `%d` with `ParseInt`.
- The `Content-Range` value with `ParseContentRange`.
- The URLs with `ParseUrl`, which reads a URL back into the origin, digest
  and resource it addresses.
- `MaybeRedirect` with `Reports`, a relation that fixes the reported error
  uniquely (`ReportsUnique`).

## Model

| member | source | states |
|---|---|---|
| `GoStrings.Split` | origin/blobserver/client.go:20 | splitting always yields at least one piece; a string without the separator splits into itself, so `""` gives `[""]` |
| `GoStrings.JoinSplit` | origin/blobserver/client.go:20 | joining the pieces of a split with the separator reproduces the split string exactly |
| `GoStrings.SplitPiecesAvoidSeparator` | origin/blobserver/client.go:20 | no piece of a split contains the separator |
| `GoStrings.SplitCount` | origin/blobserver/client.go:20 | splitting at a character yields one piece more than the string has occurrences of that character |
| `GoStrings.SplitJoin` | origin/blobserver/client.go:20 | for a non-empty list of pieces free of the separator character, splitting their join returns exactly that list, so split and join are inverse |
| `GoStrings.Index` | origin/blobserver/client.go:20 | the index returned is the leftmost occurrence of the separator, and there is none exactly when the separator does not occur |
| `Decimal.FormatInt` | origin/blobserver/client.go:129 | `%d` text is non-empty, starts with `-` exactly for negative numbers, and otherwise holds only digits; it has no leading zeros: only `0` itself starts with `0`, and a negative number's first digit is not `0` |
| `Decimal.ParseFormatInt` | origin/blobserver/client.go:129 | `%d` text reads back as the same integer, negative values included |
| `BlobServer.NewRedirectError` | origin/blobserver/client.go:19-22 | the locations are non-empty and free of commas; their comma-join is the `Origin-Locations` value; their number is the number of commas in it plus one; an empty or missing header value gives `[""]` |
| `BlobServer.AnnouncedByUnique` | origin/blobserver/client.go:19-22 | a header determines exactly one such list of locations |
| `BlobServer.MaybeRedirect` | origin/blobserver/client.go:159-167 | nil maps to nil and an error never maps to nil; a `StatusError` with status 307 becomes a redirect error announced by its header; every other error, including a `StatusError` with another status, is returned unchanged; the result differs from the input exactly for 307 status errors |
| `BlobServer.ReportsUnique` | origin/blobserver/client.go:159-167 | the reporting relation that `MaybeRedirect` and every endpoint satisfy leaves exactly one admissible result |
| `BlobServer.MaybeRedirectIdempotent` | origin/blobserver/client.go:159-167 | converting an already converted error changes nothing |
| `BlobServer.HttpClient.CheckBlob` | origin/blobserver/client.go:79-82 | the `HEAD` outcome's error, reported through `maybeRedirect`; nil exactly when the call succeeded |
| `BlobServer.HttpClient.GetBlob` | origin/blobserver/client.go:85-91 | on failure, no body and the reported (non-nil) error; on success, the response body and a nil error |
| `BlobServer.HttpClient.DeleteBlob` | origin/blobserver/client.go:99-104 | the `DELETE` outcome's error, reported through `maybeRedirect` |
| `BlobServer.HttpClient.StartUpload` | origin/blobserver/client.go:108-120 | no error exactly when the call succeeded with a non-empty `Location` header, and the uuid is then that header; on failure the uuid is `""` and the error is the reported one; after a success with an empty `Location` the uuid is `""` and the error is the "Location header not set" error |
| `BlobServer.HttpClient.PatchUpload` | origin/blobserver/client.go:124-133 | the `PATCH` outcome's error, reported through `maybeRedirect` |
| `BlobServer.HttpClient.CommitUpload` | origin/blobserver/client.go:136-141 | the `PUT` outcome's error, reported through `maybeRedirect` |
| `BlobServer.NoErrorExactlyOnSuccess` | origin/blobserver/client.go:79-141 | every endpoint that returns only an error returns nil exactly when the helper call succeeded; `GetBlob` does the same for its error result |
| `BlobServer.ParseTargetUrl` | origin/blobserver/client.go:80-138 | when neither the address nor the digest contains `/`, a target's URL parses back to exactly that origin, digest and resource |
| `BlobServer.EndpointTargets` | origin/blobserver/client.go:80-138 | for such addresses and digests, each endpoint's URL names the blob, its uploads, or the upload `uuid`, on the client's own origin |
| `BlobServer.ParseContentRangeOfFormat` | origin/blobserver/client.go:129 | the text `{start}-{stop}` parses back to both bounds, negative ones included |
| `BlobServer.ContentRange` | origin/blobserver/client.go:129 | the `Content-Range` value is the `%d` text of `start`, a `-`, then the `%d` text of `stop`, and it parses back to exactly `start` and `stop` |
| `Http.HeaderValue` | origin/blobserver/client.go:20 | `Header.Get`: the first value stored under the key when there is one; a non-empty result is always one of the key's values, so a missing key or an empty list gives `""` |
| `BlobServer.HttpClient.CheckBlobRequest` | origin/blobserver/client.go:80 | `HEAD` of `http://{addr}/blobs/{d}` with the helper's default codes, no headers and no body |
| `BlobServer.HttpClient.GetBlobRequest` | origin/blobserver/client.go:86 | `GET` of `http://{addr}/blobs/{d}` with the helper's default codes, no headers and no body |
| `BlobServer.HttpClient.DeleteBlobRequest` | origin/blobserver/client.go:100-102 | `DELETE` of `http://{addr}/blobs/{d}` accepting only 202, no headers and no body |
| `BlobServer.HttpClient.StartUploadRequest` | origin/blobserver/client.go:109-111 | `POST` to `http://{addr}/blobs/{d}/uploads` accepting only 202, no headers and no body |
| `BlobServer.HttpClient.PatchUploadRequest` | origin/blobserver/client.go:125-131 | `PATCH` of `http://{addr}/blobs/{d}/uploads/{uuid}` with the chunk as body, accepting only 202; its only header is `Content-Range`, whose value is the `%d` text of `start`, a `-`, then the `%d` text of `stop`, and reads back as `start` and `stop` |
| `BlobServer.HttpClient.CommitUploadRequest` | origin/blobserver/client.go:137-139 | `PUT` of `http://{addr}/blobs/{d}/uploads/{uuid}` accepting only 201, no headers and no body |

## Left out

- HTTP round-trips: `httputil.Head/Get/Post/Patch/Put/Delete` are network I/O in a package that is not part of this model. The `send` parameter stands for them. How the helper checks accepted codes, and its default codes (`DefaultCodes`), are not modelled.
- Streams: `io.Reader` request bodies and `io.ReadCloser` response bodies are modelled as byte sequences. Reading and closing them is not modelled.
- Unimplemented methods: `Locations`, `PushBlob`, `Repair`, `RepairShard` and `RepairDigest` only panic, so they have no behaviour to state.
- Error text: the message of `RedirectError.Error()` depends on Go's `%v` formatting of slices and is cosmetic.
- Constructors: `HTTPClientProvider.Provide` and `NewHTTPClient` only wrap `addr`. The datatype constructor `HttpClient(addr)` stands for them.
- `HeaderValue`: the lookup key is not canonicalised as `http.Header.Get` does. The client only uses the literal keys `Origin-Locations` and `Location`, which are already canonical.
- `Digest`: `image.Digest` is not part of this model. A digest enters as the text that `%s` renders for it.
- `Error`: `httputil.StatusError` is modelled with only its status and header, the two fields the client reads. Go's type assertion matches the value type `StatusError`; the model has one `StatusError` variant. All other errors (network failures, the `errors.New` value returned by `StartUpload`) are `OtherError(message)`, compared by message. In Go, each `errors.New` call makes a distinct value.
- `GoStrings.Split`: Go's behaviour for an empty separator (splitting into UTF-8 sequences) is not modelled. The client always splits at `","`. Strings are sequences of characters, not UTF-8 bytes.
- `ParseUrl` and `ParseContentRange` are reference inverses, not code from the client. They are used only to show that the URLs and the `Content-Range` value identify their inputs.
- `lib/torrent/scheduler/conn/fixtures.go` is only test plumbing: an in-memory pipe, a real clock, metrics, and calls into `NewHandshaker` and `newConn`, which are not part of this model. Its local no-op deadline setters and empty close callback have no behaviour to state.
- The peer handshake, the connection lifecycle, close notification and configuration defaults: their implementations are not part of this model.
