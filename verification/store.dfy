/** The provider behind an adapter, reduced to one bucket: whether it exists
    (and with which region), its objects by key, and the per-object ACLs.
    Every primitive takes a `fault`: the error the provider or the network
    answers with, `None` when the call goes through. */
module Store {
  import opened Wrappers
  import opened Strings
  import opened Common
  import opened Paths
  import opened RelativePath

  datatype Store = Store(bucketRegion: Option<string>, objects: map<string, Bytes>, acls: map<string, string>)

  predicate BucketExists(st: Store)
  {
    st.bucketRegion.Some?
  }

  /** BucketExists: whether the bucket is there, or the call's error. */
  function CheckBucket(st: Store, fault: Option<Error>): (r: Result<bool, Error>)
    ensures r.Ok? <==> fault.None?
    ensures r.Ok? ==> (r.value <==> BucketExists(st))
  {
    if fault.Some? then Err(fault.value) else Ok(BucketExists(st))
  }

  /** MakeBucket: creates the bucket in `region`; no object changes. */
  function MakeBucket(st: Store, region: string, fault: Option<Error>): (r: Result<Store, Error>)
    ensures r.Ok? <==> fault.None?
    ensures r.Ok? ==> r.value.bucketRegion == Some(region) && r.value.objects == st.objects
  {
    if fault.Some? then Err(fault.value) else Ok(st.(bucketRegion := Some(region)))
  }

  /** PutObject: stores `data` under `key`, with `acl` when one is given (else the
      bucket default); needs the bucket. */
  function PutObject(st: Store, key: string, data: Bytes, acl: Option<string>, fault: Option<Error>)
    : (r: Result<Store, Error>)
    ensures r.Ok? <==> fault.None? && BucketExists(st)
    ensures r.Ok? ==> key in r.value.objects && r.value.objects[key] == data
    ensures r.Ok? ==> forall k :: k != key ==>
              (k in r.value.objects <==> k in st.objects) &&
              (k in st.objects ==> r.value.objects[k] == st.objects[k])
    ensures r.Ok? ==> r.value.bucketRegion == st.bucketRegion
    ensures r.Ok? && acl.Some? ==> key in r.value.acls && r.value.acls[key] == acl.value
  {
    if fault.Some? then Err(fault.value)
    else if !BucketExists(st) then Err(NoSuchBucket)
    else
      var acls := if acl.Some? then st.acls[key := acl.value] else st.acls - {key};
      Ok(Store(st.bucketRegion, st.objects[key := data], acls))
  }

  /** GetObject: the bytes under `key`. */
  function GetObject(st: Store, key: string, fault: Option<Error>): (r: Result<Bytes, Error>)
    ensures r.Ok? <==> fault.None? && BucketExists(st) && key in st.objects
    ensures r.Ok? ==> r.value == st.objects[key]
  {
    if fault.Some? then Err(fault.value)
    else if !BucketExists(st) then Err(NoSuchBucket)
    else if key !in st.objects then Err(NoSuchKey(key))
    else Ok(st.objects[key])
  }

  /** RemoveObject / DeleteObject: removing an absent key succeeds. */
  function RemoveObject(st: Store, key: string, fault: Option<Error>): (r: Result<Store, Error>)
    ensures r.Ok? <==> fault.None? && BucketExists(st)
    ensures r.Ok? ==> key !in r.value.objects
    ensures r.Ok? ==> forall k :: k != key ==>
              (k in r.value.objects <==> k in st.objects) &&
              (k in st.objects ==> r.value.objects[k] == st.objects[k])
  {
    if fault.Some? then Err(fault.value)
    else if !BucketExists(st) then Err(NoSuchBucket)
    else Ok(Store(st.bucketRegion, st.objects - {key}, st.acls - {key}))
  }

  /** `keys` is a faithful listing of the keys that start with `prefix`, taken
      as given (no normalisation): each once, nothing else. */
  predicate ListsPrefix(st: Store, prefix: string, keys: seq<string>)
  {
    && (forall i, j :: 0 <= i < j < |keys| ==> keys[i] != keys[j])
    && (forall i :: 0 <= i < |keys| ==> keys[i] in st.objects && HasPrefix(keys[i], prefix))
    && (forall k :: k in st.objects && HasPrefix(k, prefix) ==> k in keys)
  }

  /** A reader handed to Put: its bytes, how many were already consumed, and
      whether `Seek(0, 0)` on it succeeds. A reader that does not implement
      io.Seeker is not seekable, and neither is one whose Seek fails, such as
      an *os.File over a pipe: Put ignores the error Seek returns and reads on
      from where the reader was. */
  datatype Reader = Reader(data: Bytes, pos: nat, seekable: bool)

  /** What reading `r` to the end yields. */
  function Unread(r: Reader): Bytes
  {
    if r.pos <= |r.data| then r.data[r.pos..] else []
  }

  /** `Seek(0, 0)` on a reader that can seek; others are left where they are. */
  function RewindIfSeekable(r: Reader): (r': Reader)
    ensures r'.data == r.data && r'.seekable == r.seekable
    ensures r.seekable ==> r'.pos == 0
    ensures !r.seekable ==> r' == r
  {
    if r.seekable then r.(pos := 0) else r
  }

  /** The bytes a Put uploads: all of a seekable reader, however far it had
      been read, and the unread rest of any other reader. */
  function Uploaded(r: Reader): (b: Bytes)
    ensures r.seekable ==> b == r.data
    ensures !r.seekable && r.pos <= |r.data| ==> r.data == r.data[..r.pos] + b
  {
    Unread(RewindIfSeekable(r))
  }

  /** The reader once an upload has read it to the end: a seekable reader was
      rewound first, so every byte has been consumed. */
  function Drained(r: Reader): (r': Reader)
    ensures r'.data == r.data && r'.seekable == r.seekable
    ensures Unread(r') == []
    ensures r.seekable ==> r'.pos == |r.data|
  {
    var w := RewindIfSeekable(r);
    if w.pos <= |w.data| then w.(pos := |w.data|) else w
  }

  /** Handing a drained reader to a second Put uploads everything again when
      it can seek, and nothing otherwise. */
  lemma UploadAfterDrain(r: Reader)
    ensures Uploaded(Drained(r)) == (if r.seekable then r.data else [])
  {
  }

  /** The entry a stored key `k` shows up as in a listing delimited at '/'
      under `prefix`: `k` itself when no '/' follows the prefix, otherwise the
      "directory" it sits in: the prefix and the rest of `k` up to and
      including the first '/' after it. */
  function Rolled(prefix: string, k: string): (e: string)
    requires HasPrefix(k, prefix)
    ensures HasPrefix(e, prefix) && HasPrefix(k, e)
    ensures '/' !in k[|prefix|..] ==> e == k
    ensures '/' in k[|prefix|..] ==> |prefix| < |e| && e[|e| - 1] == '/' && '/' !in e[|prefix|..|e| - 1]
  {
    var (segment, after, found) := Cut(k[|prefix|..], '/');
    if found then
      assert k == prefix + segment + "/" + after;
      assert (prefix + segment + "/")[|prefix|..|prefix| + |segment|] == segment;
      prefix + segment + "/"
    else k
  }

  /** `e` is what some stored key under `prefix` shows up as in a delimited listing. */
  ghost predicate RollsUpStoredKey(st: Store, prefix: string, e: string)
  {
    exists k :: k in st.objects && HasPrefix(k, prefix) && Rolled(prefix, k) == e
  }

  /** What a provider answers to a listing delimited at '/' (S3's
      ListObjectsV2 with a delimiter): each key under the prefix with no '/'
      after it, and each directory below the prefix once, in some order. */
  ghost predicate DelimitedListing(st: Store, prefix: string, keys: seq<string>)
  {
    && (forall i, j :: 0 <= i < j < |keys| ==> keys[i] != keys[j])
    && (forall i :: 0 <= i < |keys| ==> RollsUpStoredKey(st, prefix, keys[i]))
    && (forall k :: k in st.objects && HasPrefix(k, prefix) ==> Rolled(prefix, k) in keys)
  }

  /** When nothing under the prefix lies in a subdirectory, a delimited listing
      and a flat one are the same thing. */
  lemma FlatListingsCoincide(st: Store, prefix: string, keys: seq<string>)
    requires forall k :: k in st.objects && HasPrefix(k, prefix) ==> '/' !in k[|prefix|..]
    ensures DelimitedListing(st, prefix, keys) <==> ListsPrefix(st, prefix, keys)
  {
    if DelimitedListing(st, prefix, keys) {
      forall i | 0 <= i < |keys|
        ensures keys[i] in st.objects && HasPrefix(keys[i], prefix)
      {
        assert RollsUpStoredKey(st, prefix, keys[i]);
        var k :| k in st.objects && HasPrefix(k, prefix) && Rolled(prefix, k) == keys[i];
      }
    }
    if ListsPrefix(st, prefix, keys) {
      forall i | 0 <= i < |keys|
        ensures RollsUpStoredKey(st, prefix, keys[i])
      {
        assert Rolled(prefix, keys[i]) == keys[i];
      }
    }
  }

  /** The keys of a listing, in order. */
  function KeysOf(entries: seq<ObjectInfo>): (keys: seq<string>)
    ensures |keys| == |entries|
    ensures forall i :: 0 <= i < |entries| ==> keys[i] == entries[i].key
  {
    seq(|entries|, i requires 0 <= i < |entries| => entries[i].key)
  }

  /** `o` describes some stored key that starts with `prefix`. */
  ghost predicate DescribesStoredKey(st: Store, prefix: string, o: Object)
  {
    exists k :: k in st.objects && HasPrefix(k, prefix) && Describes(o, k)
  }

  /** Descriptors built from a faithful listing name exactly the stored keys
      that start with the prefix: every such key appears, and nothing else. */
  lemma ListingCoversPrefix(st: Store, prefix: string, entries: seq<ObjectInfo>, objects: seq<Object>)
    requires ListsPrefix(st, prefix, KeysOf(entries))
    requires |objects| == |entries|
    requires forall i :: 0 <= i < |entries| ==> objects[i] == Listed(entries[i])
    ensures forall k :: k in st.objects && HasPrefix(k, prefix) ==>
              exists i :: 0 <= i < |objects| && Describes(objects[i], k)
    ensures forall i :: 0 <= i < |objects| ==> DescribesStoredKey(st, prefix, objects[i])
  {
    var keys := KeysOf(entries);
    forall k | k in st.objects && HasPrefix(k, prefix)
      ensures exists i :: 0 <= i < |objects| && Describes(objects[i], k)
    {
      var i :| 0 <= i < |keys| && keys[i] == k;
      ListedDescribes(entries[i]);
    }
    forall i | 0 <= i < |objects|
      ensures DescribesStoredKey(st, prefix, objects[i])
    {
      ListedIsStored(st, prefix, entries, objects, i);
    }
  }

  lemma ListedIsStored(st: Store, prefix: string, entries: seq<ObjectInfo>, objects: seq<Object>, i: int)
    requires ListsPrefix(st, prefix, KeysOf(entries))
    requires |objects| == |entries| && 0 <= i < |objects|
    requires objects[i] == Listed(entries[i])
    ensures DescribesStoredKey(st, prefix, objects[i])
  {
    var keys := KeysOf(entries);
    ListedDescribes(entries[i]);
    assert keys[i] == entries[i].key;
    assert keys[i] in st.objects && HasPrefix(keys[i], prefix);
  }

  /** The prefix is not normalised: when the stored keys are normalised (no
      leading '/'), a root-relative prefix such as "/x" lists nothing. */
  lemma RootedPrefixListsNothing(st: Store, prefix: string, keys: seq<string>)
    requires forall k :: k in st.objects ==> k == [] || k[0] != '/'
    requires ListsPrefix(st, "/" + prefix, keys)
    ensures keys == []
  {
    forall k | k in st.objects
      ensures !HasPrefix(k, "/" + prefix)
    {
      UnrootedKeyLacksRootedPrefix(k, prefix);
    }
    if keys != [] {
      FirstListedKey(st, "/" + prefix, keys);
      assert false;
    }
  }

  lemma FirstListedKey(st: Store, prefix: string, keys: seq<string>)
    requires ListsPrefix(st, prefix, keys) && keys != []
    ensures keys[0] in st.objects && HasPrefix(keys[0], prefix)
  {
  }

  lemma UnrootedKeyLacksRootedPrefix(k: string, prefix: string)
    requires k == [] || k[0] != '/'
    ensures !HasPrefix(k, "/" + prefix)
  {
  }
}
