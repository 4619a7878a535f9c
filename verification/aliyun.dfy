/** The Aliyun OSS adapter (aliyun/aliyun.go): a client bound to one bucket,
    addressed as a sub-domain of the endpoint, with signed URLs for private
    buckets. */
module Aliyun {
  import opened Wrappers
  import opened Strings
  import opened Paths
  import opened RelativePath
  import opened Common
  import opened Store

  const DefaultEndpoint := "oss-cn-hangzhou.aliyuncs.com"

  /** The ACL types of the OSS SDK. */
  const ACLPrivate := "private"
  const ACLPublicRead := "public-read"
  const ACLPublicReadWrite := "public-read-write"
  const ACLDefault := "default"

  /** Signed URLs are valid for one hour. */
  const SignedURLSeconds := 60 * 60

  /** The client options `New` passes to the SDK; only the CNAME one matters here. */
  datatype ClientOption = UseCname(enabled: bool) | OtherOption(name: string)

  datatype Config = Config(
    accessId: string,
    accessKey: string,
    region: string,
    bucket: string,
    endpoint: string,
    acl: string,
    clientOptions: seq<ClientOption>,
    useCname: bool)

  /** A client: its configuration and the endpoint the SDK client was built with. */
  datatype Client = Client(config: Config, sdkEndpoint: string)

  datatype HttpMethod = HttpGet | HttpPut | HttpHead | HttpPost | HttpDelete

  /** The SDK's URL signer: object key, method and lifetime in seconds to a URL or an error. */
  type Signer = (string, HttpMethod, int) -> Result<string, Error>

  /** New: default the endpoint and the ACL, add one CNAME option when asked,
      then build the SDK client and bind the bucket; a failure of either step
      (the SDK's answers `clientFault`, `bucketFault`) is fatal. */
  function New(config: Config, clientFault: Option<Error>, bucketFault: Option<Error>): (r: Construction<Client>)
    ensures r.Fatal? <==> clientFault.Some? || bucketFault.Some?
    ensures r.Built? ==> r.client.config.endpoint != [] && r.client.sdkEndpoint == r.client.config.endpoint
    ensures r.Built? && config.endpoint == [] ==> r.client.config.endpoint == DefaultEndpoint
    ensures r.Built? && config.endpoint != [] ==> r.client.config.endpoint == config.endpoint
    ensures r.Built? && config.acl == [] ==> r.client.config.acl == ACLPublicRead
    ensures r.Built? && config.acl != [] ==> r.client.config.acl == config.acl
    ensures r.Built? ==> config.clientOptions <= r.client.config.clientOptions
    ensures r.Built? ==> |r.client.config.clientOptions| == |config.clientOptions| + (if config.useCname then 1 else 0)
    ensures r.Built? && config.useCname ==> r.client.config.clientOptions[|config.clientOptions|] == UseCname(true)
    ensures r.Built? ==>
              r.client.config.(endpoint := config.endpoint, acl := config.acl, clientOptions := config.clientOptions)
              == config
  {
    var endpoint := if config.endpoint == [] then DefaultEndpoint else config.endpoint;
    var acl := if config.acl == [] then ACLPublicRead else config.acl;
    var options := if config.useCname then config.clientOptions + [UseCname(config.useCname)]
                   else config.clientOptions;
    var config' := config.(endpoint := endpoint, acl := acl, clientOptions := options);
    if clientFault.Some? then Fatal(clientFault.value)
    else if bucketFault.Some? then Fatal(bucketFault.value)
    else Built(Client(config', endpoint))
  }

  /** GetStream: the SDK's GetObject on the normalised key; it fails at once
      when the object is missing. */
  function GetStream(c: Client, st: Store, path: string, fault: Option<Error>): (r: Result<Bytes, Error>)
    ensures r.Ok? <==> fault.None? && BucketExists(st) && ToRelativePath(path) in st.objects
    ensures r.Ok? ==> r.value == st.objects[ToRelativePath(path)]
  {
    GetObject(st, ToRelativePath(path), fault)
  }

  /** Get: the object copied into a temporary file. When the temporary file
      cannot be created the opened stream is not closed. */
  function Get(c: Client, st: Store, path: string, fault: Option<Error>, tempFault: Option<Error>)
    : (r: Fetched)
    ensures r.error.None? <==>
              fault.None? && BucketExists(st) && ToRelativePath(path) in st.objects && tempFault.None?
    ensures r.error.None? ==> r.file == Some(st.objects[ToRelativePath(path)])
    ensures r.error.Some? ==> r.file.None?
    ensures r.streamLeftOpen <==> GetStream(c, st, path, fault).Ok? && tempFault.Some?
  {
    match GetStream(c, st, path, fault)
    case Err(e) => Fetched(None, Some(e), false)
    case Ok(b) =>
      if tempFault.Some? then Fetched(None, tempFault, true)
      else Fetched(Some(b), None, false)
  }

  /** Put returns the descriptor together with the write's error, whether or
      not the write succeeded, and the caller's reader as Put left it (`None`
      after a failed write, where how far the SDK read is unknown). */
  datatype PutResult = PutResult(descriptor: Object, error: Option<Error>, store: Store, readerAfter: Option<Reader>)

  /** Put: rewind, then write under the normalised key with the configured ACL.
      No bucket is created. */
  function Put(c: Client, st: Store, urlPath: string, reader: Reader, now: Timestamp, fault: Option<Error>)
    : (r: PutResult)
    ensures r.descriptor == Object(urlPath, Base(urlPath), Some(now))
    ensures r.error.None? <==> fault.None? && BucketExists(st)
    ensures r.error.Some? ==> r.store == st
    ensures r.store.bucketRegion == st.bucketRegion
    ensures r.error.None? ==>
              var key := ToRelativePath(urlPath);
              key in r.store.objects && r.store.objects[key] == Uploaded(reader) &&
              key in r.store.acls && r.store.acls[key] == c.config.acl &&
              forall k :: k != key ==>
                (k in r.store.objects <==> k in st.objects) &&
                (k in st.objects ==> r.store.objects[k] == st.objects[k])
    ensures r.error.None? <==> r.readerAfter == Some(Drained(reader))
  {
    var descriptor := Object(urlPath, Base(urlPath), Some(now));
    match PutObject(st, ToRelativePath(urlPath), Uploaded(reader), Some(c.config.acl), fault)
    case Err(e) => PutResult(descriptor, Some(e), st, None)
    case Ok(st') => PutResult(descriptor, None, st', Some(Drained(reader)))
  }

  /** Delete: removes the object at the normalised key, and only that one. */
  function Delete(c: Client, st: Store, path: string, fault: Option<Error>): (r: (Store, Option<Error>))
    ensures r.1.None? <==> fault.None? && BucketExists(st)
    ensures r.1.None? ==> ToRelativePath(path) !in r.0.objects
    ensures r.1.None? ==> forall k :: k != ToRelativePath(path) ==>
              (k in r.0.objects <==> k in st.objects) &&
              (k in st.objects ==> r.0.objects[k] == st.objects[k])
    ensures r.1.Some? ==> r.0 == st
  {
    match RemoveObject(st, ToRelativePath(path), fault)
    case Ok(st') => (st', None)
    case Err(e) => (st, Some(e))
  }

  /** List: the SDK's ListObjects with the prefix as given; on error an empty
      list and the error, otherwise one descriptor per returned key, in order. */
  method List(c: Client, prefix: string, reply: Result<seq<ObjectInfo>, Error>)
    returns (objects: seq<Object>, err: Option<Error>)
    ensures reply.Err? ==> objects == [] && err == Some(reply.error)
    ensures reply.Ok? ==> err.None? && |objects| == |reply.value|
    ensures reply.Ok? ==> forall i :: 0 <= i < |reply.value| ==> objects[i] == Listed(reply.value[i])
  {
    match reply
    case Err(e) =>
      objects, err := [], Some(e);
    case Ok(entries) =>
      objects := DescribeAll(entries);
      err := None;
  }

  /** The SDK endpoint with a leading "https://" and then a leading "http://" removed. */
  function StripSchemes(endpoint: string): string
  {
    TrimPrefix(TrimPrefix(endpoint, "https://"), "http://")
  }

  /** GetEndpoint: bucket sub-domain of an `aliyuncs.com` endpoint, any other
      configured endpoint as it is, and, with no configured endpoint, the
      bucket sub-domain of the SDK's endpoint without its scheme. */
  function GetEndpoint(c: Client): (r: string)
    ensures c.config.endpoint != [] && HasSuffix(c.config.endpoint, "aliyuncs.com") ==>
              r == c.config.bucket + "." + c.config.endpoint
    ensures c.config.endpoint != [] && !HasSuffix(c.config.endpoint, "aliyuncs.com") ==>
              r == c.config.endpoint
    ensures c.config.endpoint == [] ==> r == c.config.bucket + "." + StripSchemes(c.sdkEndpoint)
  {
    if c.config.endpoint != [] then
      if HasSuffix(c.config.endpoint, "aliyuncs.com") then c.config.bucket + "." + c.config.endpoint
      else c.config.endpoint
    else
      c.config.bucket + "." + StripSchemes(c.sdkEndpoint)
  }

  /** GetURL: for a private ACL, the signer's GET URL for the normalised key,
      valid for an hour; otherwise the argument itself, unnormalised. */
  function GetURL(c: Client, path: string, sign: Signer): (r: Result<string, Error>)
    ensures c.config.acl == ACLPrivate ==> r == sign(ToRelativePath(path), HttpGet, SignedURLSeconds)
    ensures c.config.acl != ACLPrivate ==> r == Ok(path)
  {
    if c.config.acl == ACLPrivate then sign(ToRelativePath(path), HttpGet, 60 * 60)
    else Ok(path)
  }

  /** A client built by New always has an endpoint, so GetEndpoint never
      falls back to the SDK's endpoint; with no endpoint configured it is the
      bucket's sub-domain of the Hangzhou endpoint. */
  lemma BuiltEndpointIsConfigured(config: Config, clientFault: Option<Error>, bucketFault: Option<Error>,
                                  sdkEndpoint: string)
    requires New(config, clientFault, bucketFault).Built?
    ensures var c := New(config, clientFault, bucketFault).client;
      GetEndpoint(c) == GetEndpoint(c.(sdkEndpoint := sdkEndpoint))
    ensures config.endpoint == [] ==>
      GetEndpoint(New(config, clientFault, bucketFault).client) == config.bucket + "." + DefaultEndpoint
  {
    var c := New(config, clientFault, bucketFault).client;
    if config.endpoint == [] {
      DefaultEndpointIsAliyun(c.config.endpoint);
    }
  }

  lemma DefaultEndpointIsAliyun(e: string)
    requires e == DefaultEndpoint
    ensures HasSuffix(e, "aliyuncs.com")
  {
    assert e == "oss-cn-hangzhou." + "aliyuncs.com";
  }

  /** The fallback removes one scheme from the SDK endpoint, "https://" or
      "http://", and leaves a host that carries neither as it is. */
  lemma StripSchemesOfSchemedHost(scheme: string, host: string)
    requires scheme == "https://" || scheme == "http://"
    requires !HasPrefix(host, "http://") && !HasPrefix(host, "https://")
    ensures StripSchemes(scheme + host) == host
    ensures StripSchemes(host) == host
  {
    assert TrimPrefix(scheme + host, scheme) == host by {
      assert (scheme + host)[|scheme|..] == host;
    }
    if scheme == "https://" {
      assert !HasPrefix(host, "http://");
    } else {
      assert !HasPrefix(scheme + host, "https://") by {
        assert (scheme + host)[4] == ':';
      }
    }
  }

  /** Every spelling of a key, the bare key or a URL whose path is the key,
      signs the same URL on a private bucket; on any other bucket the URL is
      the argument itself, so the spellings give different URLs. */
  lemma PrivateURLFollowsKey(c: Client, sign: Signer, scheme: string, labels: seq<string>, key: string)
    requires !HasDoubleSlash(key) && key != [] && key[0] != '/'
    requires '?' !in key && '#' !in key && '%' !in key && !Url.ContainsCtl(key)
    requires Url.IsLetters(scheme) && |labels| >= 2 && UrlPattern.AllWords(labels)
    ensures var url := (if scheme == [] then [] else scheme + ":") + "//" + UrlPattern.JoinDots(labels) + "/" + key;
      c.config.acl == ACLPrivate ==>
        GetURL(c, url, sign) == GetURL(c, key, sign) == sign(key, HttpGet, SignedURLSeconds)
    ensures var url := (if scheme == [] then [] else scheme + ":") + "//" + UrlPattern.JoinDots(labels) + "/" + key;
      c.config.acl != ACLPrivate ==> GetURL(c, url, sign) != GetURL(c, key, sign)
  {
    UrlAndKeyAgree(scheme, labels, key);
    var url := (if scheme == [] then [] else scheme + ":") + "//" + UrlPattern.JoinDots(labels) + "/" + key;
    assert |url| > |key|;
  }

  /** A client built without an ACL is public-read, so its URLs are unsigned. */
  lemma DefaultACLIsUnsigned(config: Config, clientFault: Option<Error>, bucketFault: Option<Error>,
                             path: string, sign: Signer)
    requires config.acl == [] && New(config, clientFault, bucketFault).Built?
    ensures GetURL(New(config, clientFault, bucketFault).client, path, sign) == Ok(path)
  {
    var c := New(config, clientFault, bucketFault).client;
    assert c.config.acl == ACLPublicRead;
    assert ACLPublicRead[1] != ACLPrivate[1];
  }

  /** What Put wrote, Get of any spelling of the same key reads back: all of a
      seekable reader. */
  lemma PutThenGet(c: Client, st: Store, urlPath: string, reader: Reader, now: Timestamp, getPath: string)
    requires BucketExists(st)
    requires ToRelativePath(getPath) == ToRelativePath(urlPath)
    ensures Put(c, st, urlPath, reader, now, None).error.None?
    ensures Get(c, Put(c, st, urlPath, reader, now, None).store, getPath, None, None)
         == Fetched(Some(Uploaded(reader)), None, false)
    ensures reader.seekable ==>
      Get(c, Put(c, st, urlPath, reader, now, None).store, getPath, None, None).file == Some(reader.data)
  {
  }

  /** After a successful Delete, Get of the same argument fails at once with
      the missing key and hands back no file. */
  lemma DeleteThenGet(c: Client, st: Store, path: string)
    requires Delete(c, st, path, None).1.None?
    ensures Get(c, Delete(c, st, path, None).0, path, None, None)
         == Fetched(None, Some(NoSuchKey(ToRelativePath(path))), false)
  {
  }
}
