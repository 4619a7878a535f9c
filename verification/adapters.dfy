/** The two adapters side by side: both implement the same storage interface
    over the same key normalisation, so an upload through one is found under
    the same key, and described the same way, as an upload through the other. */
module Adapters {
  import opened Wrappers
  import opened Common
  import opened Store
  import opened RelativePath
  import Minio
  import Aliyun

  /** A successful Put through either adapter returns the same descriptor,
      leaves the same bytes under the same key, with every other key as it was,
      and leaves the caller's reader in the same state. */
  lemma PutsAgree(mc: Minio.Client, ac: Aliyun.Client, st: Store, urlPath: string, reader: Reader,
                  now: Timestamp, faults: Minio.PutFaults)
    requires BucketExists(st)
    requires Minio.Put(mc, st, urlPath, reader, now, faults).Stored?
    ensures var m := Minio.Put(mc, st, urlPath, reader, now, faults);
      var a := Aliyun.Put(ac, st, urlPath, reader, now, None);
      a.error.None? && m.descriptor == a.descriptor && m.store.objects == a.store.objects &&
      m.readerAfter == a.readerAfter
  {
    var m := Minio.Put(mc, st, urlPath, reader, now, faults);
    var a := Aliyun.Put(ac, st, urlPath, reader, now, None);
    var key := ToRelativePath(urlPath);
    forall k | k in m.store.objects
      ensures k in a.store.objects && m.store.objects[k] == a.store.objects[k]
    {
    }
    forall k | k in a.store.objects
      ensures k in m.store.objects
    {
    }
  }

  /** Reading a stored object under a valid name, the adapters hand back the
      same file; they differ on failure, where MinIO's lazy stream leaves an
      empty file next to the error and Aliyun returns none, and on a name
      minio-go refuses (empty once white space is trimmed, or over 1024
      bytes), which the Aliyun SDK sends on and reads like any other. */
  lemma GetsAgreeOnStoredKeys(mc: Minio.Client, ac: Aliyun.Client, st: Store, path: string)
    requires BucketExists(st)
    ensures Minio.ValidObjectName(ToRelativePath(path)) && ToRelativePath(path) in st.objects ==>
      Minio.Get(mc, st, path, None, None) == Aliyun.Get(ac, st, path, None, None)
    ensures Minio.ValidObjectName(ToRelativePath(path)) && ToRelativePath(path) !in st.objects ==>
      Minio.Get(mc, st, path, None, None).file == Some([]) &&
      Aliyun.Get(ac, st, path, None, None).file == None &&
      Minio.Get(mc, st, path, None, None).error == Aliyun.Get(ac, st, path, None, None).error
    ensures !Minio.ValidObjectName(ToRelativePath(path)) ==>
      Minio.Get(mc, st, path, None, None).error == Some(InvalidObjectName(ToRelativePath(path))) &&
      (Aliyun.Get(ac, st, path, None, None).error.None? <==> ToRelativePath(path) in st.objects)
  {
  }

  /** Handed the same entries, both adapters describe them alike. The SDKs do
      not hand them the same entries for the same prefix, though: MinIO asks
      for a listing delimited at '/' (Minio.ListRollsUpDirectories), Aliyun for
      a flat one (Store.ListingCoversPrefix), and the two answers coincide only
      when no key under the prefix lies in a subdirectory
      (Store.FlatListingsCoincide). */
  method ListsAgree(mc: Minio.Client, ac: Aliyun.Client, prefix: string, entries: seq<ObjectInfo>)
    returns (fromMinio: seq<Object>, fromAliyun: seq<Object>)
    ensures fromMinio == fromAliyun
    ensures |fromMinio| == |entries|
  {
    var e1, e2;
    fromMinio, e1 := Minio.List(mc, prefix, entries);
    fromAliyun, e2 := Aliyun.List(ac, prefix, Ok(entries));
  }
}
