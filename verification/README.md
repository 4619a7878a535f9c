# uploader storage adapters in Dafny

A model of the two storage adapters of the Go package `uploader`: the MinIO
adapter (`minio/minio.go`) and the Aliyun OSS adapter (`aliyun/aliyun.go`).
Both expose the same interface — `Get`, `GetStream`, `Put`, `Delete`, `List`,
`GetEndpoint`, `GetURL` — and both map every path argument to a provider key
with `ToRelativePath`. Both describe stored objects with `common.Object`
(`common/object.go`), which holds a path, a name and an optional modification time.

The provider behind an adapter is one bucket: a store that may or may not
exist, a map from keys to bytes, and a map of per-object ACLs. Every provider
call takes a fault parameter. This is the error the provider or the network
answers with, or `None` when the call goes through. The same applies to the
SDK constructors and to temporary-file creation. Aliyun's URL signer is a
function parameter.

Modules, in dependency order:

- `Wrappers`: `Option` and `Result`.
- `Strings`: prefix, suffix, `TrimPrefix`, `Cut`, the "//" test and the infix relation.
- `Paths`: Go's `filepath.Base` and `path.Ext` for '/'-separated paths.
- `UrlPattern`: the unanchored regular expression `(https?:)?//((\w+).)+(\w+)/`.
  - It is written as a small automaton over the characters.
  - `\w` is ASCII letters, digits and '_'.
  - The unescaped `.` matches any character except a newline, '/' included.
- `Url`: the part of Go's `url.Parse` that decides the path.
  - Fragment cut, control-character check, the `"*"` case and scheme scan.
  - Query cut, opaque form, colon in the first segment, and the `//authority` split.
- `RelativePath`: `ToRelativePath`. The two adapters contain the same regular
  expression and the same body character for character. It is defined once
  here and both adapters call it, so they agree on every input by construction.
- `Common`: `Object` (the descriptor), `ObjectInfo` (a listing entry), errors,
  and the descriptor every `List` builds for a listed key.
- `Store`: the provider primitives, the readers handed to `Put`, and faithful listings.
- `Minio` and `Aliyun`: the adapters.
- `Adapters`: the two adapters compared.

Two properties of the code worth knowing before reading the table:

- `ToRelativePath` is not idempotent on every input. `"//a"` is no URL and
  loses one '/'; `"/a"` then loses another (`RelativePath.NotIdempotentOnDoubleSlash`).
  It is idempotent on inputs with no "//" (`RelativePath.PlainPathIdempotent`).
- A descriptor's name is not always the base name of its path. A listed key
  `""` gives path `"/"` and name `"."` (`Common.ListedNameCanDifferFromPath`).
  MinIO's listing yields such an entry whenever it reports a failure, because
  the loop ignores the entry's error. For ordinary keys the two agree
  (`Common.ListedNameMatchesPath`).

## Model

| member | source | states |
|---|---|---|
| RelativePath.ToRelativePath | minio/minio.go:79-88 | Total: every input yields a key and no error. The key is always a contiguous piece of the input text. Its three branches are stated by the lemmas below. |
| RelativePath.NonUrlStripsOneSlash | minio/minio.go:81-87 | When the URL pattern does not match, exactly one leading '/' is removed if present, and the input is otherwise returned unchanged. |
| RelativePath.PlainPathStripsOneSlash | minio/minio.go:80-87 | An input without "//" never takes the URL branch, so only one leading '/' is removed. |
| RelativePath.PlainPathIdempotent | minio/minio.go:80-87 | On inputs without "//", normalising twice equals normalising once. The result has no leading '/'. |
| RelativePath.NotIdempotentOnDoubleSlash | minio/minio.go:80-87 | "//a" normalises to "/a", and "/a" to "a", so idempotence fails in general. |
| RelativePath.UrlNormalisesToPath | minio/minio.go:77-84 | `scheme://host/path` and `//host/path` normalise to the path without its leading '/'. The host must be at least two dotted word labels, with no query, fragment or control character. |
| RelativePath.ParseFailureFallsBack | minio/minio.go:81-87 | When the pattern matches but `url.Parse` fails, the parse error is dropped and the input loses at most one leading '/', as on the non-URL branch. |
| RelativePath.ParseFailureExample | minio/minio.go:81-87 | ":x//a.b/" matches the pattern, fails to parse (missing scheme), and comes back unchanged. |
| RelativePath.LeadingColonFallsBack | minio/minio.go:81-87 | ':' followed by any matched text without control characters matches, fails to parse (missing scheme), and comes back unchanged. |
| RelativePath.StarBeforeFragment | minio/minio.go:81-84 | "*#" followed by any text the pattern matches (such as "//a.b/") that holds no '%' matches, parses to the path "*" once the fragment is cut, and normalises to "*". |
| RelativePath.UrlAndKeyAgree | aliyun/aliyun.go:83-94 | A URL spelling of a plain key and the key itself both normalise to the key. |
| RelativePath.PlainKeyExamples | minio/minio.go:86-87 | "/a/b.txt" and "a/b.txt" both give the key "a/b.txt". |
| RelativePath.UrlKeyExamples | minio/minio.go:77-84 | "https://host.example.com/a/b.txt" and "//host.example.com/a/b.txt" both give the key "a/b.txt". |
| UrlPattern.MatchIsSearch | minio/minio.go:77-81 | `MatchString` is a search: it holds exactly when the pattern matches starting at some index of the input, that is, "//" there followed by the rest of the pattern. |
| UrlPattern.MatchNeedsDoubleSlash | minio/minio.go:77 | The pattern can only match text that contains "//". |
| UrlPattern.MatchExtendsLeft | minio/minio.go:77 | The match is unanchored: text before a matching string does not stop the match. |
| UrlPattern.UrlShapeMatches | minio/minio.go:77 | `//` followed by two or more dotted word labels and a '/' matches, whatever precedes or follows it. |
| Url.Parse | minio/minio.go:82 | The parse fails with an invalid-control-character error exactly when a control character precedes the first '#'. A missing-scheme error means the input starts with ':'. A parsed scheme holds no upper-case letter. |
| Url.ParsePathIsInfix | minio/minio.go:82-83 | A parsed path is a piece of the raw text and never holds the query or the fragment. |
| Url.ParseUrlShape | minio/minio.go:82-83 | `scheme://host/path` and `//host/path`, with a host of letters, digits, '_', '.' and '-', parse to the lower-cased scheme and exactly that host and path. |
| Strings.TrimPrefix | minio/minio.go:83 | With the prefix present, the input is prefix plus result; otherwise the input is returned unchanged. |
| Paths.Base | minio/minio.go:137 | Never empty. Contains '/' only when it is "/". It is "." for the empty path. |
| Paths.BaseOfSegment | minio/minio.go:137 | The base of `dir/name` and of `name` is `name`. |
| Paths.Ext | minio/minio.go:121 | Empty exactly when the last element has no '.'. Otherwise it starts at the last element's last '.' and is a suffix of that element. |
| Common.Listed | minio/minio.go:152-156 | The listed path is "/" plus the normalised key; the name is the base of the raw key; the modification time is present. |
| Common.ListedNameMatchesPath | minio/minio.go:153-154 | For a non-empty key without "//" that is not all slashes, the name is the base of the listed path. |
| Common.ListedNameCanDifferFromPath | minio/minio.go:151-156 | The empty key gives path "/" and name ".", which is not the base of that path. |
| Common.DescribeAll | minio/minio.go:151-157 | The loop as intended: one descriptor per listing entry, in order, each with its own entry's path, name and time. |
| Common.DescribeAllAsWritten | minio/minio.go:151-156 | The loop as written, one descriptor per entry. What the descriptors hold is stated by the two lemmas below. |
| Common.AsWrittenSharesLastTime | minio/minio.go:151-156 | The loop as written: descriptor i names entry i, but every descriptor's time is the last entry's, read through the one shared loop variable. |
| Common.AsWrittenIsIntendedIff | minio/minio.go:151-156 | The loop as written gives every entry its own descriptor exactly when all entries carry the last entry's time. |
| Common.SharedTimeExample | aliyun/aliyun.go:121-126 | For two entries with different times, the first descriptor reports the second entry's time. |
| Store.Uploaded | minio/minio.go:91-93 | A reader whose `Seek(0, 0)` succeeds uploads all its bytes however far it had been read. Any other reader uploads only its unread rest: one that is no io.Seeker, and one whose Seek fails, since the error is ignored. |
| Store.PutObject | aliyun/aliyun.go:101 | Succeeds exactly when there is no fault and the bucket exists. Then the key holds the data, the ACL is recorded, and every other key is unchanged. |
| Store.GetObject | minio/minio.go:74 | Succeeds exactly when there is no fault, the bucket exists and the key is stored; it yields the stored bytes. |
| Store.RemoveObject | minio/minio.go:143 | Succeeds exactly when there is no fault and the bucket exists, removing an absent key included. The key is gone and every other key is unchanged. |
| Store.ListingCoversPrefix | aliyun/aliyun.go:118-128 | From a faithful flat listing of the raw prefix, every stored key with that prefix is described, and every descriptor describes such a key. |
| Store.Rolled | minio/minio.go:151 | The entry a key shows up as in a listing delimited at '/': the key itself when no '/' follows the prefix, otherwise the shortest piece of it that extends the prefix and ends in '/'. |
| Store.FlatListingsCoincide | minio/minio.go:151 | When no key under the prefix has a '/' after it, a delimited listing and a flat one are the same listing. |
| Store.UploadAfterDrain | minio/minio.go:91-93 | A reader left at its end by an upload gives all its bytes to the next upload if it can seek, and none otherwise. |
| Store.RootedPrefixListsNothing | aliyun/aliyun.go:118 | The prefix is not normalised: over normalised keys, a prefix starting with '/' lists nothing. |
| Minio.New | minio/minio.go:36-57 | An SDK failure is fatal and returns no client. An empty ACL becomes "readwrite". The rest of the configuration is kept. |
| Minio.NewIdempotent | minio/minio.go:50-52 | A built client's ACL is never empty, and building again from its configuration gives the same client. |
| Minio.GetStream | minio/minio.go:73-75 | Reads the normalised key. minio-go refuses an invalid object name (empty once white space is trimmed, or over 1024 bytes) at once. Otherwise the stream yields the stored bytes exactly when there is no fault, the bucket exists and the key is stored. |
| Minio.Get | minio/minio.go:59-71 | An invalid name returns no file and the name error. Without an error the file holds the stored bytes. Past the name check, a read error still returns an empty file, and a temporary-file failure returns no file and leaves the stream open. |
| Minio.PrepareBucket | minio/minio.go:98-105 | A missing bucket is created with the configured region. Put fails only when that creation fails. An error from the existence check is ignored. |
| Minio.Put | minio/minio.go:90-140 | Fails with the store unchanged exactly when bucket creation fails. Once the bucket step succeeds, it aborts whenever the path has no extension, and with an extension it aborts on an invalid object name before reading anything. An abort leaves the objects as they were. On success it writes only the normalised key, with the uploaded bytes, and returns the raw path, its base name and the time. A seekable reader is rewound; after a success the reader is at its end, after a failure or an abort before the upload it is only rewound. |
| Minio.PutAbortsWithoutExtension | minio/minio.go:121-122 | A path `dir/name` whose last element has no '.' (such as `docs/README`) aborts once the bucket step succeeds, and no object is written. |
| Minio.PutIntended | minio/minio.go:121-131 | The corrected Put: it never aborts for a missing extension, and it equals Put whenever there is an extension. |
| Minio.PutIntendedThenGet | minio/minio.go:90-140 | With no faults, the corrected Put stores the object exactly when the object name is valid, and then Get of any spelling of the same key returns the uploaded bytes. An invalid name leaves the objects as they were. |
| Minio.PutThenGet | minio/minio.go:59-75 | After a stored Put, Get of the same argument returns the uploaded bytes: all of a seekable reader. |
| Minio.PutTwice | minio/minio.go:91-93 | Putting the reader a successful Put left behind uploads the whole content again when it can seek, and an empty object otherwise. |
| Minio.PutKeyThenGetUrl | minio/minio.go:77-88 | An object put under a plain key is read back through a URL spelling of that key. |
| Minio.SameKeySameGet | minio/minio.go:73-75 | Get depends only on the normalised key. |
| Minio.Delete | minio/minio.go:142-144 | An invalid object name is refused with the store unchanged. Otherwise it removes only the normalised key. On error the store is unchanged. |
| Minio.DeleteThenGet | minio/minio.go:59-75 | After a Delete, Get of the same argument returns an empty file and the missing-key error. |
| Minio.List | minio/minio.go:146-160 | One descriptor per delivered entry, in order, failure entries included, each with its own entry's time (the corrected loop). The error is always nil. |
| Minio.ListRollsUpDirectories | minio/minio.go:151-157 | The listing is non-recursive: every stored key under the prefix is covered by its own descriptor or its directory's, and every descriptor names such a key or directory. |
| Minio.ListShowsDirectory | minio/minio.go:151-157 | With "x/1.txt", "x/2.txt" and "y/1.txt" stored, listing "x" yields only the directory "x/", which is no stored key, described as path "/x/" named "x". |
| Minio.GetEndpoint | minio/minio.go:162-168 | Starts with "https://" exactly when SSL is on. Ends with "/" and the bucket. |
| Minio.GetURLInjective | minio/minio.go:170-174 | GetURL does not normalise: different arguments give different URLs, even when they name the same key. |
| Aliyun.New | aliyun/aliyun.go:34-63 | A client or bucket failure is fatal. An empty endpoint becomes the Hangzhou endpoint and an empty ACL public-read. Exactly one CNAME option is appended iff CNAME is requested. The SDK is built with the final endpoint. |
| Aliyun.GetStream | aliyun/aliyun.go:79-81 | Reads the normalised key and fails at once when the object is missing. |
| Aliyun.Get | aliyun/aliyun.go:65-77 | Without an error the file holds the stored bytes; on any error there is no file. The stream is left open exactly when it was opened and the temporary file failed. |
| Aliyun.Put | aliyun/aliyun.go:96-109 | Returns the raw path, its base name and the time even when the write fails. It writes only the normalised key, with the configured ACL, and never creates a bucket. A successful write leaves the reader at its end. |
| Aliyun.Delete | aliyun/aliyun.go:111-113 | Removes only the normalised key. On error the store is unchanged. |
| Aliyun.List | aliyun/aliyun.go:115-131 | On error: no descriptors, and the error. Otherwise one descriptor per listed key, in order, each with its own entry's time (the corrected loop). |
| Aliyun.GetEndpoint | aliyun/aliyun.go:133-147 | Three cases, none adding a scheme: the bucket sub-domain of an `aliyuncs.com` endpoint; any other endpoint as is; without one, the bucket sub-domain of the SDK endpoint with its scheme stripped. |
| Aliyun.BuiltEndpointIsConfigured | aliyun/aliyun.go:133-140 | For a client built by New, GetEndpoint does not depend on the SDK endpoint. With no configured endpoint it is the bucket sub-domain of the Hangzhou endpoint. |
| Aliyun.StripSchemesOfSchemedHost | aliyun/aliyun.go:141-144 | The fallback removes a leading "https://" or "http://" and leaves a bare host alone. |
| Aliyun.GetURL | aliyun/aliyun.go:149-154 | A private client signs a GET for the normalised key, valid for 3600 seconds. Any other client returns the argument unchanged with no error. |
| Aliyun.PrivateURLFollowsKey | aliyun/aliyun.go:149-154 | On a private bucket, a URL spelling and the bare key sign the same URL. On any other bucket they give different URLs. |
| Aliyun.DefaultACLIsUnsigned | aliyun/aliyun.go:44-46 | A client built without an ACL hands out its arguments unsigned. |
| Aliyun.PutThenGet | aliyun/aliyun.go:96-109 | With no faults and an existing bucket, Put succeeds, and Get of any spelling of the same key returns the uploaded bytes. |
| Aliyun.DeleteThenGet | aliyun/aliyun.go:111-113 | After a Delete, Get of the same argument returns no file and the missing-key error. |
| Adapters.PutsAgree | aliyun/aliyun.go:96-109 | A Put stored by MinIO is also stored by Aliyun on the same store. The two return the same descriptor, leave the same objects and leave the reader in the same state. |
| Adapters.GetsAgreeOnStoredKeys | aliyun/aliyun.go:65-81 | On stored keys with a name minio-go accepts, both Gets return the same file. On missing keys they report the same error, but only MinIO returns an (empty) file. A name minio-go refuses fails in MinIO whether or not it is stored, while Aliyun reads it. |
| Adapters.ListsAgree | aliyun/aliyun.go:115-131 | Handed the same entries, both adapters build the same descriptors. The SDKs do not hand them the same entries for a prefix with subdirectories (see `Store.FlatListingsCoincide`). |

## Left out

- Provider SDK internals (minio-go, aliyun-oss-go-sdk) are out of scope: authentication, request signing, HTTP transport and the listing channel. The store is a map, every call's outcome is a fault parameter, and `SignURL` is a function parameter.
- The `doneCh` channel of MinIO's List is concurrency plumbing. `Minio.List` takes the entries the channel delivers.
- Minio.ValidObjectName: minio-go also refuses an object name that is not valid UTF-8. A Dafny string of characters always encodes, so that case is not represented. Its checks of the bucket name are left out: the bucket is configuration, not an argument.
- Store.ListingCoversPrefix: assumes the whole listing arrives at once. `ListObjects` returns one page of at most the SDK's default number of keys, so beyond that many keys under the prefix Aliyun's List misses the rest. Pagination is not modelled; `Aliyun.List` takes the page it is given.
- Temporary files, `io.Copy` and `Seek` in Get are left out. The file is its bytes, and read errors during the copy are not modelled. The model records only that a failed `TempFile` leaves the stream unclosed, not that any path is leak-free.
- MIME detection through `filetype` is left out. Only the extension slice that can panic is kept.
- `time.Now()` is a parameter of Put. `common.GetSize` is file-system I/O and is not modelled.
- `New` writes its defaults into the caller's `*Config` as well as the client's. The model returns the defaulted configuration inside the client only.
- Url.Parse: percent-decoding of the path and the fragment, and authority validation (ports, IPv6 literals, user info, host characters), are not modelled. Go rejects a malformed escape in the path or the fragment and rewrites or rejects such hosts; the model parses them to their raw pieces. So `ToRelativePath("//a.b/c#%zz")` is `"c"` in the model, while in Go the parse fails and the result is `"/a.b/c#%zz"`.
- Url.Parse: the `"*"` case is reachable from `ToRelativePath` only when a fragment follows it, as in `"*#//a.b/"` (`RelativePath.StarBeforeFragment`, `RelativePath.StarExample`).
- RelativePath.ToRelativePath and Url.ParsePathIsInfix: the key, and the parsed path, are a contiguous piece of the input only in the model. Go's `url.Parse` percent-decodes the path, so in Go `"//a.b/%41"` gives the key `"A"` and `"//a.b/x%3Fy"` the path `"/x?y"`, neither a piece of the input. Both contracts hold of Go on inputs without '%'.
- RelativePath.StarBeforeFragment: covers only fragments without '%'. Go also decodes the fragment and rejects a malformed escape there, so `"*#//a.b/%zz"` fails to parse in Go and comes back unchanged.
- RelativePath.UrlNormalisesToPath, RelativePath.UrlAndKeyAgree, Url.ParseUrlShape, Minio.PutKeyThenGetUrl and Aliyun.PrivateURLFollowsKey: state nothing about paths containing '%'. Go's `url.Parse` percent-decodes the path, and the model does not.
- Minio.GetURL: its contract only composes the URL as the source does. What it promises is stated by `Minio.GetURLInjective` and `Minio.GetEndpoint`.
- Common.DescribeAll, Minio.List and Aliyun.List: give each descriptor its own entry's time, as the loops evidently intend. That is how they run when the `go` directive in the module's go.mod says 1.22 or later, which gives each iteration its own loop variable. Under an older directive every descriptor reads the last entry's time (see "## Findings" and `Common.DescribeAllAsWritten`).
- Store.Uploaded: `seekable` means that `Seek(0, 0)` succeeds. Put ignores the error Seek returns, so a reader whose Seek fails (an `*os.File` over a pipe, say) is modelled as not seekable and uploads only its unread rest. A Seek that fails after moving the offset is not modelled.
- Minio.Put: after a failed write the reader's position is not modelled (`readerAfter` is `None`); how far the SDK read before failing is not visible.
- Aliyun.Put: after a failed write the reader's position is not modelled (`readerAfter` is `None`), for the same reason.
- Minio.Put: a PutObject error panics in the source. It is modelled as an `Aborted(WriteFailed)` outcome whose store is the one after the bucket step. An invalid object name is such an error, raised before the reader is touched.

## Findings

| source | as written | input that shows it | evidently intended | confidence | as-written member | corrected member |
|---|---|---|---|---|---|---|
| minio/minio.go:121-122 | `filetype.GetType(extension[1:])` slices the result of `path.Ext` without checking that it is non-empty | Put of "docs/README" with the bucket step succeeding: `path.Ext` is "" and `[1:]` panics before the object is written | a path without an extension is uploaded with an unknown (empty) content type | high; not executed | Minio.PutAbortsWithoutExtension | Minio.PutIntendedThenGet |
| minio/minio.go:151-156 | `LastModified: &obj.LastModified` takes the address of a field of the range variable, which, under a go.mod `go` directive older than 1.22, is one variable for the whole loop | a channel delivering ("a.txt", t1) then ("b.txt", t2), t1 ≠ t2: both descriptors read t2 | each descriptor carries its own entry's time | medium (depends on the `go` directive in the module's go.mod, which is not part of this model: per-iteration loop variables need 1.22 or later, and the minio-go v6 API and `ioutil` date the code before Go 1.22); not executed | Common.AsWrittenIsIntendedIff | Common.DescribeAll |
| aliyun/aliyun.go:121-126 | the same `&obj.LastModified` of the range variable over `results.Objects` | a page listing ("a.txt", t1) then ("b.txt", t2), t1 ≠ t2: both descriptors read t2 | each descriptor carries its own entry's time | medium (as above); not executed | Common.SharedTimeExample | Common.DescribeAll |
