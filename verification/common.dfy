/** The types both adapters share: the `common.Object` descriptor, the bytes
    and errors that cross the provider boundary, and the result shapes of
    construction and of `Get`. */
module Common {
  import opened Wrappers
  import opened Paths
  import opened RelativePath

  newtype byte = x: int | 0 <= x < 256

  type Bytes = seq<byte>

  /** `time.Time`, kept opaque: only equality matters to the model. */
  datatype Timestamp = Timestamp(unixNanos: int)

  /** common.Object: the caller-facing path, its base name and a last-modified time. */
  datatype Object = Object(path: string, name: string, lastModified: Option<Timestamp>)

  /** The errors a provider call, or the local temporary file, can report. */
  datatype Error =
    | NoSuchKey(key: string)
    | NoSuchBucket
    | TempFileError
    | ProviderError(code: string)
    | InvalidObjectName(key: string)

  /** One key as a provider listing reports it. MinIO's listing channel also
      reports failures as entries, with an empty key and `err` set. */
  datatype ObjectInfo = ObjectInfo(key: string, lastModified: Timestamp, err: Option<Error>)

  /** The outcome of `New`: a client, or the panic that ends construction. */
  datatype Construction<C> = Built(client: C) | Fatal(cause: Error)

  /** The `(file, err)` pair of `Get`, plus whether an opened provider stream
      is left without a Close. */
  datatype Fetched = Fetched(file: Option<Bytes>, error: Option<Error>, streamLeftOpen: bool)

  /** The descriptor both adapters build for one listed key: a root-absolute
      normalised path, and the base name of the key as listed. */
  function Listed(info: ObjectInfo): (o: Object)
    ensures o.path != [] && o.path[0] == '/'
    ensures o.path[1..] == ToRelativePath(info.key)
    ensures o.name == Base(info.key)
    ensures o.lastModified == Some(info.lastModified)
  {
    Object("/" + ToRelativePath(info.key), Base(info.key), Some(info.lastModified))
  }

  /** `o` is the descriptor of the key `k`: its normalised path under '/' and its base name. */
  predicate Describes(o: Object, k: string)
  {
    o.path == "/" + ToRelativePath(k) && o.name == Base(k)
  }

  lemma ListedDescribes(info: ObjectInfo)
    ensures Describes(Listed(info), info.key)
  {
    var o := Listed(info);
    assert o.path == "/" + o.path[1..];
  }

  /** For an ordinary key (non-empty, no "//") the listed name is the base
      name of the listed path, as it is for a descriptor built from a path. */
  lemma ListedNameMatchesPath(info: ObjectInfo)
    requires info.key != [] && !Strings.HasDoubleSlash(info.key)
    requires Paths.TrimTrailingSlashes(info.key) != []
    ensures Base(Listed(info).path) == Listed(info).name
  {
    var k := info.key;
    PlainPathStripsOneSlash(k);
    if k[0] == '/' {
      assert "/" + k[1..] == k;
    } else {
      BasePrependSlash(k);
    }
  }

  /** The empty key (what MinIO's listing carries on a failure entry) becomes
      path "/" and name ".": the name is then not the base name of the path. */
  lemma ListedNameCanDifferFromPath(info: ObjectInfo)
    requires info.key == []
    ensures Listed(info).path == "/" && Listed(info).name == "."
    ensures Base(Listed(info).path) != Listed(info).name
  {
    assert !UrlPattern.MatchString(info.key);
  }

  /** The List loops as written. Under a go.mod `go` directive older than
      1.22 a range loop has one `obj` for all of its iterations, so every `&obj.LastModified` is the address of
      the same time: each assignment of the next entry to `obj` changes the time
      of every descriptor built so far, and once the loop ends they all read
      the last entry's time. */
  function DescribeAllAsWritten(entries: seq<ObjectInfo>): (objects: seq<Object>)
    ensures |objects| == |entries|
    decreases |entries|
  {
    if entries == [] then []
    else
      var obj := entries[|entries| - 1];
      Retimed(DescribeAllAsWritten(entries[..|entries| - 1]), obj.lastModified) + [Listed(obj)]
  }

  /** As written, descriptor `i` still names entry `i`, but its time is the
      last entry's. */
  lemma {:induction false} AsWrittenSharesLastTime(entries: seq<ObjectInfo>)
    ensures forall i :: 0 <= i < |entries| ==> Describes(DescribeAllAsWritten(entries)[i], entries[i].key)
    ensures forall i :: 0 <= i < |entries| ==>
              DescribeAllAsWritten(entries)[i].lastModified == Some(entries[|entries| - 1].lastModified)
    decreases |entries|
  {
    if entries != [] {
      var n := |entries| - 1;
      AsWrittenSharesLastTime(entries[..n]);
      forall i | 0 <= i < |entries|
        ensures Describes(DescribeAllAsWritten(entries)[i], entries[i].key)
        ensures DescribeAllAsWritten(entries)[i].lastModified == Some(entries[n].lastModified)
      {
        if i < n {
          assert entries[..n][i] == entries[i];
        }
        AsWrittenAt(entries, i);
      }
    }
  }

  /** One step of the loop: the entry just assigned to the shared variable
      sets every earlier descriptor's time and adds its own descriptor. */
  lemma AsWrittenAt(entries: seq<ObjectInfo>, i: int)
    requires 0 <= i < |entries|
    requires i < |entries| - 1 ==> Describes(DescribeAllAsWritten(entries[..|entries| - 1])[i], entries[i].key)
    ensures Describes(DescribeAllAsWritten(entries)[i], entries[i].key)
    ensures DescribeAllAsWritten(entries)[i].lastModified == Some(entries[|entries| - 1].lastModified)
  {
    AsWrittenUnfolds(entries);
    if i < |entries| - 1 {
      AsWrittenEarlier(entries, i);
    } else {
      AsWrittenLast(entries);
    }
  }

  lemma AsWrittenEarlier(entries: seq<ObjectInfo>, i: int)
    requires 0 <= i < |entries| - 1
    requires Describes(DescribeAllAsWritten(entries[..|entries| - 1])[i], entries[i].key)
    ensures Describes(DescribeAllAsWritten(entries)[i], entries[i].key)
    ensures DescribeAllAsWritten(entries)[i].lastModified == Some(entries[|entries| - 1].lastModified)
  {
    var n := |entries| - 1;
    var earlier := Retimed(DescribeAllAsWritten(entries[..n]), entries[n].lastModified);
    AsWrittenUnfolds(entries);
    RetimedDescribes(DescribeAllAsWritten(entries[..n]), entries[n].lastModified, i, entries[i].key);
    AppendKeeps(earlier, Listed(entries[n]), i);
  }

  lemma AsWrittenLast(entries: seq<ObjectInfo>)
    requires entries != []
    ensures Describes(DescribeAllAsWritten(entries)[|entries| - 1], entries[|entries| - 1].key)
    ensures DescribeAllAsWritten(entries)[|entries| - 1].lastModified == Some(entries[|entries| - 1].lastModified)
  {
    AsWrittenUnfolds(entries);
    ListedDescribes(entries[|entries| - 1]);
  }

  lemma AppendKeeps(s: seq<Object>, x: Object, i: int)
    requires 0 <= i < |s|
    ensures (s + [x])[i] == s[i]
  {
  }

  lemma AsWrittenUnfolds(entries: seq<ObjectInfo>)
    requires entries != []
    ensures var n := |entries| - 1;
      DescribeAllAsWritten(entries)
        == Retimed(DescribeAllAsWritten(entries[..n]), entries[n].lastModified) + [Listed(entries[n])]
  {
  }

  lemma RetimedDescribes(objects: seq<Object>, t: Timestamp, i: int, k: string)
    requires 0 <= i < |objects| && Describes(objects[i], k)
    ensures Describes(Retimed(objects, t)[i], k) && Retimed(objects, t)[i].lastModified == Some(t)
  {
  }

  /** The descriptors with every time read through the shared variable, now holding `t`. */
  function Retimed(objects: seq<Object>, t: Timestamp): (r: seq<Object>)
    ensures |r| == |objects|
    ensures forall i :: 0 <= i < |r| ==>
              r[i].path == objects[i].path && r[i].name == objects[i].name && r[i].lastModified == Some(t)
  {
    seq(|objects|, i requires 0 <= i < |objects| => objects[i].(lastModified := Some(t)))
  }

  /** The loop as written gives every entry its own descriptor exactly when
      all entries share the last entry's time; otherwise some descriptor
      reports a time that is not its entry's. */
  lemma AsWrittenIsIntendedIff(entries: seq<ObjectInfo>)
    ensures (forall i :: 0 <= i < |entries| ==> DescribeAllAsWritten(entries)[i] == Listed(entries[i]))
        <==> (forall i :: 0 <= i < |entries| ==> entries[i].lastModified == entries[|entries| - 1].lastModified)
  {
    var objects := DescribeAllAsWritten(entries);
    AsWrittenSharesLastTime(entries);
    if forall i :: 0 <= i < |entries| ==> entries[i].lastModified == entries[|entries| - 1].lastModified {
      forall i | 0 <= i < |entries|
        ensures objects[i] == Listed(entries[i])
      {
        var o := Listed(entries[i]);
        ListedDescribes(entries[i]);
        assert objects[i] == Object(o.path, o.name, o.lastModified);
      }
    }
  }

  /** Two entries with different times: as written, the first descriptor
      reports the second entry's time instead of its own. */
  lemma SharedTimeExample(a: ObjectInfo, b: ObjectInfo)
    requires a.lastModified != b.lastModified
    ensures DescribeAllAsWritten([a, b])[0].lastModified == Some(b.lastModified)
    ensures DescribeAllAsWritten([a, b])[0] != Listed(a)
  {
    AsWrittenSharesLastTime([a, b]);
  }

  /** The loop both List implementations evidently intend (and run, under
      per-iteration loop variables): one descriptor appended per entry, in
      order, each with its own entry's time. */
  method DescribeAll(entries: seq<ObjectInfo>) returns (objects: seq<Object>)
    ensures |objects| == |entries|
    ensures forall i :: 0 <= i < |entries| ==> objects[i] == Listed(entries[i])
  {
    objects := AppendEach(entries, Listed);
  }

  /** `describe` applied to each entry in turn, the results appended in order. */
  method AppendEach<A, B>(entries: seq<A>, describe: A -> B) returns (results: seq<B>)
    ensures |results| == |entries|
    ensures forall i :: 0 <= i < |entries| ==> results[i] == describe(entries[i])
  {
    results := [];
    var i := 0;
    while i < |entries|
      invariant 0 <= i <= |entries|
      invariant |results| == i
      invariant forall j :: 0 <= j < i ==> results[j] == describe(entries[j])
    {
      results := results + [describe(entries[i])];
      i := i + 1;
    }
  }
}
