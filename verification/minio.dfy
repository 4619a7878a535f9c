/** The MinIO adapter (minio/minio.go): a client over an S3-compatible store,
    with the bucket addressed as a path segment of the endpoint. */
module Minio {
  import opened Wrappers
  import opened Strings
  import opened Paths
  import opened RelativePath
  import opened Common
  import opened Store

  /** The bucket policies of minio-go's `policy` package. */
  const BucketPolicyNone := "none"
  const BucketPolicyReadOnly := "readonly"
  const BucketPolicyReadWrite := "readwrite"
  const BucketPolicyWriteOnly := "writeonly"

  datatype Config = Config(
    accessId: string,
    accessKey: string,
    bucket: string,
    endpoint: string,
    region: string,
    isSsl: bool,
    acl: string)

  datatype Client = Client(config: Config)

  /** New: an empty ACL becomes read-write; a failure of minio.New (the SDK's
      answer, `sdkFault`) is fatal and no client is returned. */
  function New(config: Config, sdkFault: Option<Error>): (r: Construction<Client>)
    ensures r.Fatal? <==> sdkFault.Some?
    ensures r.Built? ==> r.client.config.(acl := config.acl) == config
    ensures r.Built? && config.acl == [] ==> r.client.config.acl == BucketPolicyReadWrite
    ensures r.Built? && config.acl != [] ==> r.client.config.acl == config.acl
  {
    var acl := if config.acl == [] then BucketPolicyReadWrite else config.acl;
    if sdkFault.Some? then Fatal(sdkFault.value) else Built(Client(config.(acl := acl)))
  }

  /** Defaulting the ACL is idempotent: a client rebuilt from a built client's
      configuration is that client. */
  lemma NewIdempotent(config: Config)
    requires New(config, None).Built?
    ensures New(New(config, None).client.config, None) == New(config, None)
    ensures New(config, None).client.config.acl != []
  {
  }

  /** unicode.IsSpace: the characters `strings.TrimSpace` removes. */
  predicate IsSpace(c: char)
  {
    var n := c as int;
    || 0x09 <= n <= 0x0D || n == 0x20 || n == 0x85 || n == 0xA0 || n == 0x1680
    || 0x2000 <= n <= 0x200A || n == 0x2028 || n == 0x2029 || n == 0x202F
    || n == 0x205F || n == 0x3000
  }

  /** The number of bytes `c` takes in UTF-8. */
  function Utf8Width(c: char): (n: nat)
    ensures 1 <= n <= 4
  {
    if c as int < 0x80 then 1 else if c as int < 0x800 then 2 else if c as int < 0x1_0000 then 3 else 4
  }

  /** The length in bytes of the UTF-8 encoding of `s`, which is Go's `len(s)`. */
  function Utf8Length(s: string): (n: nat)
    ensures |s| <= n <= 4 * |s|
  {
    if s == [] then 0 else Utf8Width(s[0]) + Utf8Length(s[1..])
  }

  /** minio-go's check of an object name, made before any request is sent:
      the name must not be empty once white space is trimmed, and must be at
      most 1024 bytes long. */
  predicate ValidObjectName(key: string)
  {
    (exists k :: 0 <= k < |key| && !IsSpace(key[k])) && Utf8Length(key) <= 1024
  }

  /** The answer of that check, `None` when the name passes. */
  function CheckObjectName(key: string): (r: Option<Error>)
    ensures r.None? <==> ValidObjectName(key)
    ensures r.Some? ==> r.value == InvalidObjectName(key)
  {
    if ValidObjectName(key) then None else Some(InvalidObjectName(key))
  }

  /** minio-go's GetObject checks the object name at once, then sends no
      request: the stream is handed back with a nil error, and a missing bucket
      or key surfaces on the first read. */
  datatype Stream = Stream(body: Result<Bytes, Error>)

  function GetStream(c: Client, st: Store, path: string, fault: Option<Error>): (r: Result<Stream, Error>)
    ensures r.Err? <==> !ValidObjectName(ToRelativePath(path))
    ensures r.Err? ==> r.error == InvalidObjectName(ToRelativePath(path))
    ensures r.Ok? ==>
              (r.value.body.Ok? <==> fault.None? && BucketExists(st) && ToRelativePath(path) in st.objects)
    ensures r.Ok? && r.value.body.Ok? ==> r.value.body.value == st.objects[ToRelativePath(path)]
  {
    var key := ToRelativePath(path);
    match CheckObjectName(key)
    case Some(e) => Err(e)
    case None => Ok(Stream(GetObject(st, key, fault)))
  }

  /** Get: the object copied into a temporary file. An invalid name returns
      no file and the error. A read error still returns the (empty) file
      alongside the error; when the temporary file cannot be created, no file
      is returned and the stream is left open. */
  function Get(c: Client, st: Store, path: string, fault: Option<Error>, tempFault: Option<Error>)
    : (r: Fetched)
    ensures !ValidObjectName(ToRelativePath(path)) ==>
              r == Fetched(None, Some(InvalidObjectName(ToRelativePath(path))), false)
    ensures r.error.None? <==>
              ValidObjectName(ToRelativePath(path)) && tempFault.None? && fault.None? &&
              BucketExists(st) && ToRelativePath(path) in st.objects
    ensures r.error.None? ==> r.file == Some(st.objects[ToRelativePath(path)])
    ensures ValidObjectName(ToRelativePath(path)) ==> (r.file.None? <==> tempFault.Some?)
    ensures ValidObjectName(ToRelativePath(path)) && r.error.Some? && tempFault.None? ==> r.file == Some([])
    ensures r.streamLeftOpen <==> ValidObjectName(ToRelativePath(path)) && tempFault.Some?
  {
    match GetStream(c, st, path, fault)
    case Err(e) => Fetched(None, Some(e), false)
    case Ok(stream) =>
      if tempFault.Some? then Fetched(None, tempFault, true)
      else
        match stream.body
        case Ok(b) => Fetched(Some(b), None, false)
        case Err(e) => Fetched(Some([]), Some(e), false)
  }

  /** The provider's answers to the three calls Put makes. */
  datatype PutFaults = PutFaults(bucketExists: Option<Error>, makeBucket: Option<Error>, putObject: Option<Error>)

  /** Why Put panics instead of returning. */
  datatype Abort = NoExtension | WriteFailed(error: Error)

  /** What Put leaves behind: the store, and the caller's reader as Put left
      it (`None` after a failed write, where how far the SDK read is unknown). */
  datatype PutOutcome =
    | Stored(descriptor: Object, store: Store, readerAfter: Option<Reader>)
    | Failed(error: Error, store: Store, readerAfter: Option<Reader>)
    | Aborted(reason: Abort, store: Store, readerAfter: Option<Reader>)

  /** The bucket step of Put: create the bucket with the configured region when
      BucketExists says it is missing. An error from BucketExists itself is
      ignored and the write is attempted anyway. */
  function PrepareBucket(c: Client, st: Store, faults: PutFaults): (r: Result<Store, Error>)
    ensures r.Err? <==> faults.bucketExists.None? && !BucketExists(st) && faults.makeBucket.Some?
    ensures r.Ok? ==> r.value.objects == st.objects
    ensures r.Ok? && BucketExists(st) ==> r.value == st
    ensures r.Ok? && !BucketExists(st) && faults.bucketExists.None? ==>
              r.value.bucketRegion == Some(c.config.region)
    ensures r.Ok? && faults.bucketExists.Some? ==> r.value == st
  {
    match CheckBucket(st, faults.bucketExists)
    case Err(_) => Ok(st)
    case Ok(true) => Ok(st)
    case Ok(false) => MakeBucket(st, c.config.region, faults.makeBucket)
  }

  /** Put, as written: rewind, create a missing bucket, then take the MIME type
      from `path.Ext(urlPath)[1:]` (which panics when the extension is empty),
      write the object, and panic if the write fails. The write refuses an
      invalid object name before it reads anything. */
  function Put(c: Client, st: Store, urlPath: string, reader: Reader, now: Timestamp, faults: PutFaults)
    : (r: PutOutcome)
    ensures r.Failed? <==> faults.bucketExists.None? && !BucketExists(st) && faults.makeBucket.Some?
    ensures r.Failed? ==> r.store == st && r.error == faults.makeBucket.value
    ensures Ext(urlPath) == [] ==> !r.Stored?
    ensures r.Aborted? && r.reason == NoExtension <==> !r.Failed? && Ext(urlPath) == []
    ensures r.Stored? ==> r.descriptor == Object(urlPath, Base(urlPath), Some(now))
    ensures r.Stored? ==> WroteOnly(st, r.store, ToRelativePath(urlPath), Uploaded(reader))
    ensures r.Stored? && !BucketExists(st) ==> r.store.bucketRegion == Some(c.config.region)
    ensures r.Stored? <==>
              !r.Failed? && Ext(urlPath) != [] && ValidObjectName(ToRelativePath(urlPath)) &&
              faults.putObject.None? && (BucketExists(st) || faults.bucketExists.None?)
    ensures r.Aborted? ==> r.store.objects == st.objects
    ensures !r.Failed? && Ext(urlPath) != [] && !ValidObjectName(ToRelativePath(urlPath)) ==>
              r.Aborted? && r.reason == WriteFailed(InvalidObjectName(ToRelativePath(urlPath)))
    ensures r.Stored? ==> r.readerAfter == Some(Drained(reader))
    ensures r.Failed? || (r.Aborted? && r.reason == NoExtension) ==>
              r.readerAfter == Some(RewindIfSeekable(reader))
    ensures r.Aborted? && r.reason.WriteFailed? ==>
              (r.readerAfter.None? <==> ValidObjectName(ToRelativePath(urlPath)))
  {
    var rewound := RewindIfSeekable(reader);
    match PrepareBucket(c, st, faults)
    case Err(e) => Failed(e, st, Some(rewound))
    case Ok(st1) =>
      var extension := Ext(urlPath);
      if extension == [] then Aborted(NoExtension, st1, Some(rewound))
      else Write(st1, urlPath, reader, now, faults.putObject)
  }

  /** The write step of Put (and of its corrected form): the name check, then
      the upload; a failure panics. */
  function Write(st1: Store, urlPath: string, reader: Reader, now: Timestamp, fault: Option<Error>)
    : (r: PutOutcome)
    ensures !r.Failed?
    ensures r.Stored? <==> ValidObjectName(ToRelativePath(urlPath)) && fault.None? && BucketExists(st1)
    ensures r.Aborted? ==> r.store == st1 && r.reason.WriteFailed?
    ensures !ValidObjectName(ToRelativePath(urlPath)) ==>
              r == Aborted(WriteFailed(InvalidObjectName(ToRelativePath(urlPath))), st1, Some(RewindIfSeekable(reader)))
    ensures ValidObjectName(ToRelativePath(urlPath)) && r.Aborted? ==> r.readerAfter.None?
    ensures r.Stored? ==> r.descriptor == Object(urlPath, Base(urlPath), Some(now))
    ensures r.Stored? ==> WroteOnly(st1, r.store, ToRelativePath(urlPath), Uploaded(reader))
    ensures r.Stored? ==> r.store.bucketRegion == st1.bucketRegion
    ensures r.Stored? ==> r.readerAfter == Some(Drained(reader))
  {
    var key := ToRelativePath(urlPath);
    match CheckObjectName(key)
    case Some(e) => Aborted(WriteFailed(e), st1, Some(RewindIfSeekable(reader)))
    case None =>
      match PutObject(st1, key, Uploaded(reader), None, fault)
      case Err(e) => Aborted(WriteFailed(e), st1, None)
      case Ok(st2) => Stored(Object(urlPath, Base(urlPath), Some(now)), st2, Some(Drained(reader)))
  }

  /** `after` is `before` with `data` stored under `key` and every other key untouched. */
  ghost predicate WroteOnly(before: Store, after: Store, key: string, data: Bytes)
  {
    && key in after.objects && after.objects[key] == data
    && BucketExists(after)
    && forall k :: k != key ==>
         (k in after.objects <==> k in before.objects) &&
         (k in before.objects ==> after.objects[k] == before.objects[k])
  }

  /** Delete: removes the object at the normalised key, and only that one;
      an invalid name is refused before any request. */
  function Delete(c: Client, st: Store, path: string, fault: Option<Error>): (r: (Store, Option<Error>))
    ensures !ValidObjectName(ToRelativePath(path)) ==> r == (st, Some(InvalidObjectName(ToRelativePath(path))))
    ensures r.1.None? <==> ValidObjectName(ToRelativePath(path)) && fault.None? && BucketExists(st)
    ensures r.1.None? ==> ToRelativePath(path) !in r.0.objects
    ensures r.1.None? ==> forall k :: k != ToRelativePath(path) ==>
              (k in r.0.objects <==> k in st.objects) &&
              (k in st.objects ==> r.0.objects[k] == st.objects[k])
    ensures r.1.Some? ==> r.0 == st
  {
    var key := ToRelativePath(path);
    match CheckObjectName(key)
    case Some(e) => (st, Some(e))
    case None =>
      match RemoveObject(st, key, fault)
      case Ok(st') => (st', None)
      case Err(e) => (st, Some(e))
  }

  /** List: one descriptor per entry the listing channel delivers, in order,
      including failure entries (their error is dropped), and a nil error. The
      prefix goes to the provider unchanged and only shapes `entries`. */
  method List(c: Client, prefix: string, entries: seq<ObjectInfo>) returns (objects: seq<Object>, err: Option<Error>)
    ensures |objects| == |entries|
    ensures forall i :: 0 <= i < |entries| ==> objects[i] == Listed(entries[i])
    ensures err.None?
  {
    objects := DescribeAll(entries);
    err := None;
  }

  /** `o` describes the entry some stored key under `prefix` shows up as in a
      delimited listing. */
  ghost predicate DescribesRolledKey(st: Store, prefix: string, o: Object)
  {
    exists k :: k in st.objects && HasPrefix(k, prefix) && Describes(o, Rolled(prefix, k))
  }

  /** List asks for a non-recursive listing, so the descriptors it builds from
      a faithful answer name the keys directly under the prefix and the
      directories below it: every stored key under the prefix is covered by
      its own entry or its directory's, and every descriptor is one of those. */
  lemma ListRollsUpDirectories(st: Store, prefix: string, entries: seq<ObjectInfo>, objects: seq<Object>)
    requires DelimitedListing(st, prefix, KeysOf(entries))
    requires |objects| == |entries|
    requires forall i :: 0 <= i < |entries| ==> objects[i] == Listed(entries[i])
    ensures forall k :: k in st.objects && HasPrefix(k, prefix) ==>
              exists i :: 0 <= i < |objects| && Describes(objects[i], Rolled(prefix, k))
    ensures forall i :: 0 <= i < |objects| ==> DescribesRolledKey(st, prefix, objects[i])
  {
    var keys := KeysOf(entries);
    forall k | k in st.objects && HasPrefix(k, prefix)
      ensures exists i :: 0 <= i < |objects| && Describes(objects[i], Rolled(prefix, k))
    {
      var i :| 0 <= i < |keys| && keys[i] == Rolled(prefix, k);
      ListedDescribes(entries[i]);
    }
    forall i | 0 <= i < |objects|
      ensures DescribesRolledKey(st, prefix, objects[i])
    {
      assert RollsUpStoredKey(st, prefix, keys[i]);
      var k :| k in st.objects && HasPrefix(k, prefix) && Rolled(prefix, k) == keys[i];
      ListedDescribes(entries[i]);
    }
  }

  /** With "x/1.txt", "x/2.txt" and "y/1.txt" stored, listing "x" yields the
      one directory "x/", which is not a stored key, and it is described as
      path "/x/" named "x". */
  lemma ListShowsDirectory(st: Store, prefix: string, dir: string, a: string, b: string, c: string, t: Timestamp)
    requires prefix == "x" && dir == "x/"
    requires a == "x/1.txt" && b == "x/2.txt" && c == "y/1.txt"
    requires st.objects.Keys == {a, b, c}
    ensures DelimitedListing(st, prefix, [dir])
    ensures !ListsPrefix(st, prefix, [dir])
    ensures Listed(ObjectInfo(dir, t, None)) == Object("/" + dir, prefix, Some(t))
  {
    OnlyDirectoryUnderX(st, prefix, dir, a, b, c);
    UnstoredEntryIsNotFlat(st, prefix, dir);
    DirectoryDescriptor(prefix, dir, t);
  }

  lemma OnlyDirectoryUnderX(st: Store, prefix: string, dir: string, a: string, b: string, c: string)
    requires prefix == "x" && dir == "x/"
    requires a == "x/1.txt" && b == "x/2.txt" && c == "y/1.txt"
    requires st.objects.Keys == {a, b, c}
    ensures DelimitedListing(st, prefix, [dir]) && dir !in st.objects
  {
    RollsIntoDirectory(prefix, dir, a);
    RollsIntoDirectory(prefix, dir, b);
    OutsidePrefix(prefix, c);
    forall k | k in st.objects && HasPrefix(k, prefix)
      ensures Rolled(prefix, k) == dir
    {
      assert k in {a, b, c};
      if k == c {
        assert false;
      }
    }
    OneDirectory(st, prefix, dir, a);
  }

  /** A delimited listing with a single entry: every key under the prefix
      rolls up into the same directory. */
  lemma OneDirectory(st: Store, prefix: string, dir: string, a: string)
    requires a in st.objects && HasPrefix(a, prefix) && Rolled(prefix, a) == dir
    requires forall k :: k in st.objects && HasPrefix(k, prefix) ==> Rolled(prefix, k) == dir
    ensures DelimitedListing(st, prefix, [dir])
  {
    assert RollsUpStoredKey(st, prefix, dir);
  }

  lemma OutsidePrefix(prefix: string, c: string)
    requires prefix == "x" && c == "y/1.txt"
    ensures !HasPrefix(c, prefix)
  {
    assert c[..|prefix|][0] != prefix[0];
  }

  lemma UnstoredEntryIsNotFlat(st: Store, prefix: string, dir: string)
    requires dir !in st.objects
    ensures !ListsPrefix(st, prefix, [dir])
  {
    assert [dir][0] == dir;
  }

  lemma RollsIntoDirectory(prefix: string, dir: string, k: string)
    requires prefix == "x" && dir == "x/"
    requires k == "x/1.txt" || k == "x/2.txt"
    ensures HasPrefix(k, prefix) && Rolled(prefix, k) == dir
  {
    assert k[|prefix|..][0] == '/';
  }

  lemma DirectoryDescriptor(name: string, dir: string, t: Timestamp)
    requires name == "x" && dir == "x/"
    ensures Listed(ObjectInfo(dir, t, None)) == Object("/" + dir, name, Some(t))
  {
    assert dir[..2][0] != '/';
    assert !HasDoubleSlash(dir[1..]);
    PlainPathStripsOneSlash(dir);
    assert TrimTrailingSlashes(dir) == name;
  }

  /** GetEndpoint: scheme from IsSSL, then the endpoint, then the bucket as a path segment. */
  function GetEndpoint(c: Client): (r: string)
    ensures HasPrefix(r, "https://") <==> c.config.isSsl
    ensures HasSuffix(r, "/" + c.config.bucket)
    ensures r == (if c.config.isSsl then "https://" else "http://") + c.config.endpoint + "/" + c.config.bucket
  {
    var r := if c.config.isSsl then "https://" + c.config.endpoint + "/" + c.config.bucket
             else "http://" + c.config.endpoint + "/" + c.config.bucket;
    assert !c.config.isSsl ==> r[4] == ':';
    r
  }

  /** GetURL: the endpoint, a '/', and the path exactly as given; never an error. */
  function GetURL(c: Client, path: string): (r: Result<string, Error>)
    ensures r.Ok?
    ensures r.value == GetEndpoint(c) + "/" + path
  {
    Ok(GetEndpoint(c) + "/" + path)
  }

  /** What Put evidently intends for a path without an extension: the content
      type is left empty (what `filetype` reports for an unknown type) and the
      object is written like any other. */
  function PutIntended(c: Client, st: Store, urlPath: string, reader: Reader, now: Timestamp, faults: PutFaults)
    : (r: PutOutcome)
    ensures r.Aborted? ==> r.reason.WriteFailed?
    ensures Ext(urlPath) != [] ==> r == Put(c, st, urlPath, reader, now, faults)
  {
    match PrepareBucket(c, st, faults)
    case Err(e) => Failed(e, st, Some(RewindIfSeekable(reader)))
    case Ok(st1) => Write(st1, urlPath, reader, now, faults.putObject)
  }

  /** As written, Put on a path whose last element has no '.' (a "README")
      panics whenever the bucket step succeeds, before anything is written. */
  lemma PutAbortsWithoutExtension(c: Client, st: Store, dir: string, name: string, reader: Reader,
                                  now: Timestamp, faults: PutFaults)
    requires name != [] && '/' !in name && '.' !in name
    requires faults.bucketExists.None? && faults.makeBucket.None?
    ensures Put(c, st, dir + "/" + name, reader, now, faults).Aborted?
    ensures Put(c, st, dir + "/" + name, reader, now, faults).store.objects == st.objects
  {
    NoExtensionInSegment(dir, name);
  }

  lemma NoExtensionInSegment(dir: string, name: string)
    requires '/' !in name && '.' !in name
    ensures Ext(dir + "/" + name) == []
  {
    LastElementOfSegment(dir + "/", name);
  }

  /** With the intended fix, any path with a valid object name round-trips: a
      successful write is read back from every spelling of the same key. An
      invalid name still panics, before anything is written. */
  lemma PutIntendedThenGet(c: Client, st: Store, urlPath: string, reader: Reader, now: Timestamp,
                           faults: PutFaults, getPath: string)
    requires faults.bucketExists.None? && faults.makeBucket.None? && faults.putObject.None?
    requires ToRelativePath(getPath) == ToRelativePath(urlPath)
    ensures PutIntended(c, st, urlPath, reader, now, faults).Stored? <==> ValidObjectName(ToRelativePath(urlPath))
    ensures !ValidObjectName(ToRelativePath(urlPath)) ==>
              PutIntended(c, st, urlPath, reader, now, faults).store.objects == st.objects
    ensures ValidObjectName(ToRelativePath(urlPath)) ==>
              (Get(c, PutIntended(c, st, urlPath, reader, now, faults).store, getPath, None, None)
               == Fetched(Some(Uploaded(reader)), None, false))
  {
    var st1 := PrepareBucket(c, st, faults).value;
    assert BucketExists(st1);
  }

  /** Put then Get on the same argument hits the same key and reads back the
      bytes written: the whole reader when it can seek. */
  lemma PutThenGet(c: Client, st: Store, urlPath: string, reader: Reader, now: Timestamp, faults: PutFaults)
    requires Put(c, st, urlPath, reader, now, faults).Stored?
    ensures Get(c, Put(c, st, urlPath, reader, now, faults).store, urlPath, None, None)
         == Fetched(Some(Uploaded(reader)), None, false)
    ensures reader.seekable ==>
              Get(c, Put(c, st, urlPath, reader, now, faults).store, urlPath, None, None).file == Some(reader.data)
  {
  }

  /** A bare key written by Put is read back through any URL spelling of it. */
  lemma PutKeyThenGetUrl(c: Client, st: Store, key: string, reader: Reader, now: Timestamp, faults: PutFaults,
                         scheme: string, labels: seq<string>)
    requires Put(c, st, key, reader, now, faults).Stored?
    requires !HasDoubleSlash(key) && key != [] && key[0] != '/'
    requires '?' !in key && '#' !in key && '%' !in key && !Url.ContainsCtl(key)
    requires Url.IsLetters(scheme) && |labels| >= 2 && UrlPattern.AllWords(labels)
    ensures var url := (if scheme == [] then [] else scheme + ":") + "//" + UrlPattern.JoinDots(labels) + "/" + key;
      Get(c, Put(c, st, key, reader, now, faults).store, url, None, None) == Fetched(Some(Uploaded(reader)), None, false)
  {
    var url := (if scheme == [] then [] else scheme + ":") + "//" + UrlPattern.JoinDots(labels) + "/" + key;
    UrlAndKeyAgree(scheme, labels, key);
    PutThenGet(c, st, key, reader, now, faults);
    SameKeySameGet(c, Put(c, st, key, reader, now, faults).store, key, url);
  }

  /** Get depends on its argument only through the normalised key. */
  lemma SameKeySameGet(c: Client, st: Store, p: string, q: string)
    requires ToRelativePath(p) == ToRelativePath(q)
    ensures Get(c, st, p, None, None) == Get(c, st, q, None, None)
  {
  }

  /** After a successful Delete, Get of the same argument fails: minio-go
      reports the missing key on the first read, so Get hands back an empty
      temporary file together with the error. */
  lemma DeleteThenGet(c: Client, st: Store, path: string)
    requires Delete(c, st, path, None).1.None?
    ensures Get(c, Delete(c, st, path, None).0, path, None, None)
         == Fetched(Some([]), Some(NoSuchKey(ToRelativePath(path))), false)
  {
  }

  /** GetURL does not normalise: different arguments give different URLs,
      even when they name the same key ("/a.txt" and "a.txt"). */
  lemma GetURLInjective(c: Client, p: string, q: string)
    requires GetURL(c, p) == GetURL(c, q)
    ensures p == q
  {
    var e := GetEndpoint(c) + "/";
    assert GetURL(c, p).value == e + p && GetURL(c, q).value == e + q;
    assert p == (e + p)[|e|..];
  }

  /** Put consumes its reader: a second Put of the reader the first one left
      behind uploads the whole content again when the reader can seek (the
      reason for the rewind), and an empty object otherwise. */
  lemma PutTwice(c: Client, st: Store, urlPath: string, reader: Reader, now: Timestamp, faults: PutFaults,
                 now': Timestamp, faults': PutFaults)
    requires Put(c, st, urlPath, reader, now, faults).Stored?
    requires var first := Put(c, st, urlPath, reader, now, faults);
      Put(c, first.store, urlPath, first.readerAfter.value, now', faults').Stored?
    ensures var first := Put(c, st, urlPath, reader, now, faults);
      var second := Put(c, first.store, urlPath, first.readerAfter.value, now', faults');
      second.store.objects[ToRelativePath(urlPath)] == (if reader.seekable then reader.data else [])
  {
    UploadAfterDrain(reader);
  }
}
