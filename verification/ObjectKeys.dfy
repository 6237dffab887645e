/** The string keys under which the operator remembers its children, and the ways it reads them back. */
module ObjectKeys {
  import opened Text

  datatype ObjectId = ObjectId(group: string, version: string, kind: string, namespace: string, name: string)
  {
    function Parts(): seq<string>
    {
      [group, version, kind, namespace, name]
    }

    /** No component contains the separator; group and namespace may be empty. */
    predicate SlashFree()
    {
      forall i :: 0 <= i < 5 ==> '/' !in Parts()[i]
    }

    /** What Kubernetes guarantees of a served object. */
    predicate Valid()
    {
      SlashFree() && kind != "" && name != ""
    }
  }

  /** group/version/kind/namespace/name */
  function GetObjectKey(id: ObjectId): string
  {
    Join(id.Parts(), '/')
  }

  function FromParts(parts: seq<string>): ObjectId
    requires |parts| >= 5
  {
    ObjectId(parts[0], parts[1], parts[2], parts[3], parts[4])
  }

  /** The reader used before pruning and finalizer cleanup. */
  function ReadForDeletion(entry: string): Option<ObjectId>
  {
    var parts := Split(entry, '/');
    if |parts| == 5 && parts[2] != "" && parts[4] != "" then Some(FromParts(parts)) else None
  }

  /** The reader used, twice over, to collect children for status updates. */
  function ReadForStatus(entry: string): Option<ObjectId>
  {
    var parts := Split(entry, '/');
    if |parts| < 5 then None else Some(FromParts(parts))
  }

  /** Splitting a key gives its five components back if and only if none of them contains a slash. */
  lemma KeySplitsIntoParts(id: ObjectId)
    ensures Split(GetObjectKey(id), '/') == id.Parts() <==> id.SlashFree()
  {
    if id.SlashFree() {
      SplitOfJoin(id.Parts(), '/');
    } else {
      var i :| 0 <= i < 5 && '/' in id.Parts()[i];
    }
  }

  lemma KeysAreInjective(a: ObjectId, b: ObjectId)
    requires a.SlashFree() && b.SlashFree() && GetObjectKey(a) == GetObjectKey(b)
    ensures a == b
  {
    KeySplitsIntoParts(a);
    KeySplitsIntoParts(b);
    assert FromParts(a.Parts()) == a && FromParts(b.Parts()) == b;
  }

  /** All readers recover the object a key was made from. */
  lemma ReadersRecover(id: ObjectId)
    requires id.Valid()
    ensures ReadForDeletion(GetObjectKey(id)) == Some(id) == ReadForStatus(GetObjectKey(id))
  {
    KeySplitsIntoParts(id);
    assert FromParts(id.Parts()) == id;
  }

  /** What the deletion reader accepts is exactly the keys of valid objects. */
  lemma ReadableIsKey(entry: string)
    ensures ReadForDeletion(entry).Some? <==> exists id: ObjectId :: id.Valid() && GetObjectKey(id) == entry
    ensures ReadForDeletion(entry).Some? ==>
              ReadForDeletion(entry).value.Valid() && GetObjectKey(ReadForDeletion(entry).value) == entry
  {
    var parts := Split(entry, '/');
    if ReadForDeletion(entry).Some? {
      var id := FromParts(parts);
      assert id.Parts() == parts;
      JoinOfSplit(entry, '/');
      assert id.Valid() && GetObjectKey(id) == entry;
    }
    forall id: ObjectId | id.Valid() && GetObjectKey(id) == entry
      ensures ReadForDeletion(entry).Some?
    {
      ReadersRecover(id);
    }
  }
}
