/**
 The HTTP client of the origin blob server: how each endpoint's request is
 built, how the helper's result is turned into the client's result, and how a
 "wrong origin" redirect becomes a redirect error naming the right origins.
 */
module BlobServer {
  import opened Wrappers
  import opened GoStrings
  import opened Decimal
  import opened Http

  /** An image digest, as the text `%s` renders it. */
  type Digest = string

  newtype int64 = x: int | -0x8000_0000_0000_0000 <= x < 0x8000_0000_0000_0000

  /** The error values the client handles or produces. */
  datatype Error =
    | StatusError(status: int, header: Header) // the helper's error for an unaccepted status
    | RedirectError(locations: seq<string>)    // the client's "redirect to these origins" error
    | OtherError(message: string)              // any other error, e.g. from the network

  /** What the helper returns for a request: a response, or an error. */
  datatype Outcome = Ok(response: Response) | Failed(error: Error)
  {
    /** The helper's error result, `None` standing for nil. */
    function Err(): Option<Error>
    {
      if Failed? then Some(error) else None
    }
  }

  /** The HTTP helper, an oracle from requests to outcomes. */
  type Transport = Request -> Outcome

  const OriginLocationsKey := "Origin-Locations"
  const LocationKey := "Location"
  const LocationNotSet := "request succeeded, but Location header not set"

  predicate IsTemporaryRedirect(e: Error)
  {
    e.StatusError? && e.status == StatusTemporaryRedirect
  }

  /**
   `locations` is what header `h` announces: a non-empty list of comma-free
   entries whose comma-join is the `Origin-Locations` value.
   */
  ghost predicate AnnouncedBy(locations: seq<string>, h: Header)
  {
    && |locations| >= 1
    && (forall i :: 0 <= i < |locations| ==> ',' !in locations[i])
    && Join(locations, ",") == HeaderValue(h, OriginLocationsKey)
  }

  /** A header announces exactly one list of locations. */
  lemma AnnouncedByUnique(l1: seq<string>, l2: seq<string>, h: Header)
    requires AnnouncedBy(l1, h) && AnnouncedBy(l2, h)
    ensures l1 == l2
  {
    SplitJoin(l1, ',');
    SplitJoin(l2, ',');
  }

  /** The redirect error for a redirect response carrying header `h`. */
  function NewRedirectError(h: Header): (e: Error)
    ensures e.RedirectError? && AnnouncedBy(e.locations, h)
    ensures |e.locations| == Count(HeaderValue(h, OriginLocationsKey), ',') + 1
    ensures HeaderValue(h, OriginLocationsKey) == "" ==> e.locations == [""]
  {
    var v := HeaderValue(h, OriginLocationsKey);
    var locations := Split(v, ",");
    JoinSplit(v, ",");
    SplitCount(v, ',');
    SplitPiecesAvoidSeparator(v, ",");
    NoCommaInPieces(locations);
    RedirectError(locations)
  }

  lemma NoCommaInPieces(pieces: seq<string>)
    requires forall i :: 0 <= i < |pieces| ==> !Contains(pieces[i], ",")
    ensures forall i :: 0 <= i < |pieces| ==> ',' !in pieces[i]
  {
    forall i | 0 <= i < |pieces|
      ensures ',' !in pieces[i]
    {
      ContainsChar(pieces[i], ',');
    }
  }

  /**
   How the client reports a helper error `err` as `r`: nil stays nil, a
   temporary redirect becomes a redirect error naming the announced
   locations, and every other error is passed on unchanged.
   */
  ghost predicate Reports(err: Option<Error>, r: Option<Error>)
  {
    && (r.None? <==> err.None?)
    && (err.Some? && IsTemporaryRedirect(err.value) ==>
          r.Some? && r.value.RedirectError? && AnnouncedBy(r.value.locations, err.value.header))
    && (err.Some? && !IsTemporaryRedirect(err.value) ==> r == err)
  }

  /** `Reports` leaves no freedom: it determines the reported error. */
  lemma ReportsUnique(err: Option<Error>, r1: Option<Error>, r2: Option<Error>)
    requires Reports(err, r1) && Reports(err, r2)
    ensures r1 == r2
  {
    if err.Some? && IsTemporaryRedirect(err.value) {
      AnnouncedByUnique(r1.value.locations, r2.value.locations, err.value.header);
    }
  }

  /** `maybeRedirect`: converts temporary redirects into redirect errors. */
  function MaybeRedirect(err: Option<Error>): (r: Option<Error>)
    ensures Reports(err, r)
    ensures r != err <==> err.Some? && IsTemporaryRedirect(err.value)
  {
    if err.None? then None
    else if IsTemporaryRedirect(err.value) then Some(NewRedirectError(err.value.header))
    else err
  }

  /** A reported error is reported again unchanged. */
  lemma MaybeRedirectIdempotent(err: Option<Error>)
    ensures MaybeRedirect(MaybeRedirect(err)) == MaybeRedirect(err)
  {
  }

  /** `GetBlob`'s two results. */
  datatype BlobBody = BlobBody(body: Option<Bytes>, err: Option<Error>)

  /** `StartUpload`'s two results. */
  datatype UploadStart = UploadStart(uuid: string, err: Option<Error>)

  /** `fmt.Sprintf("%d-%d", start, stop)`. */
  function ContentRange(start: int64, stop: int64): (v: string)
    ensures v == FormatInt(start as int) + "-" + FormatInt(stop as int)
    ensures ParseContentRange(v) == Some((start as int, stop as int))
  {
    ParseContentRangeOfFormat(start, stop);
    FormatInt(start as int) + "-" + FormatInt(stop as int)
  }

  /** Reads a `Content-Range` value back into its two bounds. */
  function ParseContentRange(v: string): Option<(int, int)>
  {
    match IndexFrom(v, "-", 1)
    case None => None
    case Some(i) =>
      match (ParseInt(v[..i]), ParseInt(v[i + 1..]))
      case (Some(start), Some(stop)) => Some((start, stop))
      case _ => None
  }

  /** The text `{start}-{stop}` determines both bounds, negative ones included. */
  lemma ParseContentRangeOfFormat(start: int64, stop: int64)
    ensures ParseContentRange(FormatInt(start as int) + "-" + FormatInt(stop as int)) == Some((start as int, stop as int))
  {
    var a, b := FormatInt(start as int), FormatInt(stop as int);
    var v := a + "-" + b;
    OccursAtChar(v, '-', |a|);
    forall j: nat | 1 <= j < |a|
      ensures !OccursAt(v, "-", j)
    {
      OccursAtChar(v, '-', j);
      assert v[j] == a[j];
    }
    IndexFromFirst(v, "-", 1, |a|);
    assert v[..|a|] == a;
    assert v[|a| + 1..] == b;
    ParseFormatInt(start as int);
    ParseFormatInt(stop as int);
  }

  /** The resource a client URL names under a blob. */
  datatype Resource = Blob | Uploads | Upload(uuid: string)

  /** What a client URL addresses: origin, digest and resource. */
  datatype Target = Target(addr: string, digest: Digest, resource: Resource)

  /** The URL of a target: `http://{addr}/blobs/{d}[/uploads[/{uuid}]]`. */
  function TargetUrl(t: Target): string
  {
    "http://" + t.addr + "/blobs/" + t.digest + ResourceSuffix(t.resource)
  }

  /** Reads a client URL back into the target it addresses. */
  function ParseUrl(url: string): Option<Target>
  {
    if |url| < 7 || url[..7] != "http://" then None
    else
      var hostAndPath := url[7..];
      match Index(hostAndPath, "/")
      case None => None
      case Some(i) => ParseBlobPath(hostAndPath[..i], hostAndPath[i..])
  }

  /** Reads the path `/blobs/{d}[...]` of a URL addressed to `addr`. */
  function ParseBlobPath(addr: string, path: string): Option<Target>
  {
    if |path| < 7 || path[..7] != "/blobs/" then None
    else
      var rest := path[7..];
      match Index(rest, "/")
      case None => Some(Target(addr, rest, Blob))
      case Some(j) =>
        match ParseUploadPath(rest[j..])
        case None => None
        case Some(resource) => Some(Target(addr, rest[..j], resource))
  }

  /** Reads the part after the digest: `/uploads` or `/uploads/{uuid}`. */
  function ParseUploadPath(tail: string): Option<Resource>
  {
    if tail == "/uploads" then Some(Uploads)
    else if |tail| >= 9 && tail[..9] == "/uploads/" then Some(Upload(tail[9..]))
    else None
  }

  /** The part of a target's URL after the digest. */
  function ResourceSuffix(r: Resource): string
  {
    match r
    case Blob => ""
    case Uploads => "/uploads"
    case Upload(uuid) => "/uploads/" + uuid
  }

  lemma ParseUploadPathOfSuffix(r: Resource)
    requires !r.Blob?
    ensures ResourceSuffix(r) == ['/'] + ResourceSuffix(r)[1..]
    ensures ParseUploadPath(ResourceSuffix(r)) == Some(r)
  {
    if r.Upload? {
      var tail := ResourceSuffix(r);
      assert |tail| > |"/uploads"|;
      assert tail[..9] == "/uploads/";
      assert tail[9..] == r.uuid;
    }
  }

  lemma ParseBlobPathOfTarget(t: Target)
    requires '/' !in t.digest
    ensures ParseBlobPath(t.addr, "/blobs/" + t.digest + ResourceSuffix(t.resource)) == Some(t)
  {
    var suffix := ResourceSuffix(t.resource);
    var path := "/blobs/" + t.digest + suffix;
    assert path[..7] == "/blobs/";
    var rest := path[7..];
    assert rest == t.digest + suffix;
    if t.resource.Blob? {
      assert rest == t.digest;
      IndexAbsent(rest, '/');
    } else {
      ParseUploadPathOfSuffix(t.resource);
      assert rest == t.digest + ['/'] + suffix[1..];
      IndexAfterPrefix(t.digest, '/', suffix[1..]);
      assert rest[..|t.digest|] == t.digest;
      assert rest[|t.digest|..] == suffix;
    }
  }

  /**
   When neither the address nor the digest contains a slash, the URL of a
   target identifies that target.
   */
  lemma ParseTargetUrl(t: Target)
    requires '/' !in t.addr && '/' !in t.digest
    ensures ParseUrl(TargetUrl(t)) == Some(t)
  {
    var path := "/blobs/" + t.digest + ResourceSuffix(t.resource);
    assert TargetUrl(t) == "http://" + t.addr + path;
    ParseUrlOfHost(t.addr, path);
    ParseBlobPathOfTarget(t);
  }

  /** The host part of a URL ends at the first slash. */
  lemma ParseUrlOfHost(addr: string, path: string)
    requires '/' !in addr && |path| >= 1 && path[0] == '/'
    ensures ParseUrl("http://" + addr + path) == ParseBlobPath(addr, path)
  {
    var url := "http://" + addr + path;
    assert url[..7] == "http://";
    var hostAndPath := url[7..];
    assert hostAndPath == addr + ['/'] + path[1..];
    IndexAfterPrefix(addr, '/', path[1..]);
    assert hostAndPath[..|addr|] == addr;
    assert hostAndPath[|addr|..] == path;
  }

  /** `HTTPClient`: a client scoped to the origin at `addr`. */
  datatype HttpClient = HttpClient(addr: string)
  {
    /** `CheckBlob`'s request: `HEAD` of the blob, the helper's default codes. */
    function CheckBlobRequest(d: Digest): (req: Request)
      ensures req.verb == Head && req.url == TargetUrl(Target(addr, d, Blob))
      ensures req.accepted == DefaultCodes && req.headers == map[] && req.body == None
    {
      Request(Head, "http://" + addr + "/blobs/" + d, map[], None, DefaultCodes)
    }

    /** `CheckBlob`: nil exactly when the helper call succeeds. */
    function CheckBlob(d: Digest, send: Transport): (err: Option<Error>)
      ensures Reports(send(CheckBlobRequest(d)).Err(), err)
    {
      MaybeRedirect(send(CheckBlobRequest(d)).Err())
    }

    /** `GetBlob`'s request: `GET` of the blob, the helper's default codes. */
    function GetBlobRequest(d: Digest): (req: Request)
      ensures req.verb == Get && req.url == TargetUrl(Target(addr, d, Blob))
      ensures req.accepted == DefaultCodes && req.headers == map[] && req.body == None
    {
      Request(Get, "http://" + addr + "/blobs/" + d, map[], None, DefaultCodes)
    }

    /** `GetBlob`: the body on success, no body and the reported error on failure. */
    function GetBlob(d: Digest, send: Transport): (r: BlobBody)
      ensures send(GetBlobRequest(d)).Failed? ==>
                r.body == None && r.err.Some? && Reports(send(GetBlobRequest(d)).Err(), r.err)
      ensures send(GetBlobRequest(d)).Ok? ==>
                r.err == None && r.body == Some(send(GetBlobRequest(d)).response.body)
    {
      match send(GetBlobRequest(d))
      case Failed(e) => BlobBody(None, MaybeRedirect(Some(e)))
      case Ok(response) => BlobBody(Some(response.body), None)
    }

    /** `DeleteBlob`'s request: `DELETE` of the blob, accepting only 202. */
    function DeleteBlobRequest(d: Digest): (req: Request)
      ensures req.verb == Delete && req.url == TargetUrl(Target(addr, d, Blob))
      ensures req.accepted == Codes({202}) && req.headers == map[] && req.body == None
    {
      Request(Delete, "http://" + addr + "/blobs/" + d, map[], None, Codes({StatusAccepted}))
    }

    /** `DeleteBlob`: nil exactly when the helper call succeeds. */
    function DeleteBlob(d: Digest, send: Transport): (err: Option<Error>)
      ensures Reports(send(DeleteBlobRequest(d)).Err(), err)
    {
      MaybeRedirect(send(DeleteBlobRequest(d)).Err())
    }

    /** `StartUpload`'s request: `POST` to the blob's uploads, accepting only 202. */
    function StartUploadRequest(d: Digest): (req: Request)
      ensures req.verb == Post && req.url == TargetUrl(Target(addr, d, Uploads))
      ensures req.accepted == Codes({202}) && req.headers == map[] && req.body == None
    {
      Request(Post, "http://" + addr + "/blobs/" + d + "/uploads", map[], None, Codes({StatusAccepted}))
    }

    /**
     `StartUpload`: the upload uuid is the `Location` header of an accepted
     response; an accepted response without one is an error.
     */
    function StartUpload(d: Digest, send: Transport): (r: UploadStart)
      ensures var o := send(StartUploadRequest(d));
        && (r.err.None? <==> o.Ok? && HeaderValue(o.response.header, LocationKey) != "")
        && (r.err.None? ==> r.uuid == HeaderValue(o.response.header, LocationKey))
        && (r.err.Some? ==> r.uuid == "")
        && (o.Failed? ==> Reports(o.Err(), r.err))
        && (o.Ok? && r.err.Some? ==> r.err == Some(OtherError(LocationNotSet)))
    {
      match send(StartUploadRequest(d))
      case Failed(e) => UploadStart("", MaybeRedirect(Some(e)))
      case Ok(response) =>
        var uuid := HeaderValue(response.header, LocationKey);
        if uuid == "" then UploadStart("", Some(OtherError(LocationNotSet)))
        else UploadStart(uuid, None)
    }

    /**
     `PatchUpload`'s request: `PATCH` of the upload `uuid` carrying the chunk
     and one `Content-Range` header that reads back as the two bounds,
     accepting only 202.
     */
    function PatchUploadRequest(d: Digest, uuid: string, start: int64, stop: int64, chunk: Bytes): (req: Request)
      ensures req.verb == Patch && req.url == TargetUrl(Target(addr, d, Upload(uuid)))
      ensures req.headers.Keys == {"Content-Range"}
      ensures req.headers["Content-Range"] == FormatInt(start as int) + "-" + FormatInt(stop as int)
      ensures ParseContentRange(req.headers["Content-Range"]) == Some((start as int, stop as int))
      ensures req.accepted == Codes({202}) && req.body == Some(chunk)
    {
      Request(
        Patch,
        "http://" + addr + "/blobs/" + d + "/uploads/" + uuid,
        map["Content-Range" := ContentRange(start, stop)],
        Some(chunk),
        Codes({StatusAccepted}))
    }

    /** `PatchUpload`: nil exactly when the helper call succeeds. */
    function PatchUpload(d: Digest, uuid: string, start: int64, stop: int64, chunk: Bytes, send: Transport): (err: Option<Error>)
      ensures Reports(send(PatchUploadRequest(d, uuid, start, stop, chunk)).Err(), err)
    {
      MaybeRedirect(send(PatchUploadRequest(d, uuid, start, stop, chunk)).Err())
    }

    /** `CommitUpload`'s request: `PUT` of the upload `uuid`, accepting only 201. */
    function CommitUploadRequest(d: Digest, uuid: string): (req: Request)
      ensures req.verb == Put && req.url == TargetUrl(Target(addr, d, Upload(uuid)))
      ensures req.accepted == Codes({201}) && req.headers == map[] && req.body == None
    {
      Request(Put, "http://" + addr + "/blobs/" + d + "/uploads/" + uuid, map[], None, Codes({StatusCreated}))
    }

    /** `CommitUpload`: nil exactly when the helper call succeeds. */
    function CommitUpload(d: Digest, uuid: string, send: Transport): (err: Option<Error>)
      ensures Reports(send(CommitUploadRequest(d, uuid)).Err(), err)
    {
      MaybeRedirect(send(CommitUploadRequest(d, uuid)).Err())
    }
  }

  /**
   The three blob endpoints address the blob, `StartUpload` its uploads and
   the two upload endpoints the upload named by `uuid`.
   */
  lemma EndpointTargets(c: HttpClient, d: Digest, uuid: string, start: int64, stop: int64, chunk: Bytes)
    requires '/' !in c.addr && '/' !in d
    ensures ParseUrl(c.CheckBlobRequest(d).url) == Some(Target(c.addr, d, Blob))
    ensures ParseUrl(c.GetBlobRequest(d).url) == Some(Target(c.addr, d, Blob))
    ensures ParseUrl(c.DeleteBlobRequest(d).url) == Some(Target(c.addr, d, Blob))
    ensures ParseUrl(c.StartUploadRequest(d).url) == Some(Target(c.addr, d, Uploads))
    ensures ParseUrl(c.PatchUploadRequest(d, uuid, start, stop, chunk).url) == Some(Target(c.addr, d, Upload(uuid)))
    ensures ParseUrl(c.CommitUploadRequest(d, uuid).url) == Some(Target(c.addr, d, Upload(uuid)))
  {
    ParseTargetUrl(Target(c.addr, d, Blob));
    ParseTargetUrl(Target(c.addr, d, Uploads));
    ParseTargetUrl(Target(c.addr, d, Upload(uuid)));
  }

  /** A successful call never yields an error, and a failed one always does. */
  lemma NoErrorExactlyOnSuccess(c: HttpClient, d: Digest, uuid: string, start: int64, stop: int64, chunk: Bytes, send: Transport)
    ensures c.CheckBlob(d, send).None? <==> send(c.CheckBlobRequest(d)).Ok?
    ensures c.DeleteBlob(d, send).None? <==> send(c.DeleteBlobRequest(d)).Ok?
    ensures c.PatchUpload(d, uuid, start, stop, chunk, send).None? <==>
              send(c.PatchUploadRequest(d, uuid, start, stop, chunk)).Ok?
    ensures c.CommitUpload(d, uuid, send).None? <==> send(c.CommitUploadRequest(d, uuid)).Ok?
    ensures c.GetBlob(d, send).err.None? <==> send(c.GetBlobRequest(d)).Ok?
  {
  }
}
