// Document ids and names (hw2/DocTable.c).
module DocTables {
  import opened Bytes
  import opened Wrappers
  import opened Tables
  import opened Fnv
  import opened FnvCollision
  import opened Layout
  import opened HashTables

  const HASHTABLE_INITIAL_NUM_BUCKETS: nat := 2
  const INVALID_DOCID: Key := 0

  // The documents in the order of their registration; ids count from 1.
  function NameOf(names: seq<CString>, d: Key): Option<CString> {
    if 1 <= d <= |names| then Some(names[d - 1]) else None
  }

  lemma NameOfSnoc(names: seq<CString>, name: CString)
    requires |names| + 1 < TWO_64
    ensures forall d: Key :: NameOf(names + [name], d) == if d == |names| + 1 then Some(name) else NameOf(names, d)
    ensures NameOf(names, |names| + 1) == None
  {
  }

  // The id under which a name was registered first.
  function IdOf(names: seq<CString>, name: CString): (d: Key)
    requires |names| < TWO_64
    ensures if d == INVALID_DOCID then forall d': Key :: NameOf(names, d') != Some(name)
            else NameOf(names, d) == Some(name)
  {
    if names == [] then INVALID_DOCID
    else
      var d := IdOf(names[..|names| - 1], name);
      NameOfSnoc(names[..|names| - 1], names[|names| - 1]);
      assert names == names[..|names| - 1] + [names[|names| - 1]];
      if d == INVALID_DOCID && names[|names| - 1] == name then |names| else d
  }

  // The id filed under a hash: that of the name with this hash.
  function IdOfHash(names: seq<CString>, hash: Key): (d: Key)
    requires |names| < TWO_64
    ensures if d == INVALID_DOCID
            then forall d': Key :: NameOf(names, d').Some? ==> FNVHash64(NameOf(names, d').value) != hash
            else NameOf(names, d).Some? && FNVHash64(NameOf(names, d).value) == hash
  {
    if names == [] then INVALID_DOCID
    else
      var d := IdOfHash(names[..|names| - 1], hash);
      NameOfSnoc(names[..|names| - 1], names[|names| - 1]);
      assert names == names[..|names| - 1] + [names[|names| - 1]];
      if d == INVALID_DOCID && FNVHash64(names[|names| - 1]) == hash then |names| else d
  }

  // No other document's name has this name's hash.
  ghost predicate NameApart(names: seq<CString>, name: CString) {
    forall d: Key :: NameOf(names, d).Some? && FNVHash64(NameOf(names, d).value) == FNVHash64(name) ==>
      NameOf(names, d).value == name
  }

  // The tables map every id to its name and the hash of every name to its id,
  // and nothing else.
  ghost predicate IdsAndNames(idToName: Table<Value>, nameToId: Table<Key>, names: seq<CString>) {
    Wf(idToName) && Wf(nameToId) && |names| < TWO_64 - 1 &&
    (forall d: Key :: Find(idToName, d) == if NameOf(names, d).Some? then Some(DocName(NameOf(names, d).value))
      else None) &&
    (forall d: Key :: NameOf(names, d).Some? ==> Find(nameToId, FNVHash64(NameOf(names, d).value)) == Some(d)) &&
    (forall k: Key :: Find(nameToId, k).Some? ==>
       NameOf(names, Find(nameToId, k).value).Some? && FNVHash64(NameOf(names, Find(nameToId, k).value).value) == k)
  }

  lemma NoNames()
    ensures IdsAndNames(Allocate(HASHTABLE_INITIAL_NUM_BUCKETS), Allocate(HASHTABLE_INITIAL_NUM_BUCKETS), [])
  {
    AllocateWf<Value>(HASHTABLE_INITIAL_NUM_BUCKETS);
    AllocateWf<Key>(HASHTABLE_INITIAL_NUM_BUCKETS);
  }

  lemma LookupHash(a: Table<Value>, b: Table<Key>, names: seq<CString>, hash: Key)
    requires IdsAndNames(a, b, names)
    ensures Find(b, hash) == if IdOfHash(names, hash) == INVALID_DOCID then None else Some(IdOfHash(names, hash))
  {
    hide FNVHash64, Find, Wf, NameOf, IdOfHash;
  }

  // Looking a name up by its hash finds its id, or nothing if it has none,
  // exactly when no other name has the same hash: the code does not check.
  lemma HashFindsName(a: Table<Value>, b: Table<Key>, names: seq<CString>, name: CString)
    requires IdsAndNames(a, b, names)
    ensures IdOfHash(names, FNVHash64(name)) == IdOf(names, name) <==> NameApart(names, name)
  {
    hide FNVHash64, Find, Wf, NameOf, IdOf, IdOfHash;
    var h, d := IdOfHash(names, FNVHash64(name)), IdOf(names, name);
    if d != INVALID_DOCID {
      assert Find(b, FNVHash64(name)) == Some(d);
    }
    LookupHash(a, b, names, FNVHash64(name));
  }

  // The two tables are inverse to each other.
  lemma IdsInvertNames(a: Table<Value>, b: Table<Key>, names: seq<CString>, name: CString, d: Key)
    requires IdsAndNames(a, b, names) && NameApart(names, name)
    ensures Find(b, FNVHash64(name)) == Some(d) <==> Find(a, d) == Some(DocName(name))
  {
    hide FNVHash64, Find, Wf, NameOf, IdOfHash;
    LookupHash(a, b, names, FNVHash64(name));
  }

  lemma OneMoreName(a: Table<Value>, b: Table<Key>, names: seq<CString>, name: CString, id: Key)
    requires IdsAndNames(a, b, names)
    requires id == |names| + 1 < TWO_64 - 1 && IdOfHash(names, FNVHash64(name)) == INVALID_DOCID
    ensures IdsAndNames(Insert(a, KV(id, DocName(name))), Insert(b, KV(FNVHash64(name), id)), names + [name])
  {
    hide FNVHash64, Find, Wf, Insert, NumElements, NameOf, IdOfHash;
    NameOfSnoc(names, name);
    InsertFinds(a, KV(id, DocName(name)));
    InsertFinds(b, KV(FNVHash64(name), id));
  }

  class DocTable {
    const idToName: HashTable<Value>
    const nameToId: HashTable<Key>
    var maxId: int
    ghost var names: seq<CString>

    ghost predicate Valid()
      reads this, idToName, idToName.Repr, nameToId, nameToId.Repr
    {
      idToName.Valid() && nameToId.Valid() && idToName.Repr !! nameToId.Repr &&
      this !in idToName.Repr && this !in nameToId.Repr &&
      maxId == |names| + 1 && IdsAndNames(idToName.View(), nameToId.View(), names)
    }

    ghost function Repr(): set<object>
      reads this, idToName, nameToId
    {
      {this} + idToName.Repr + nameToId.Repr
    }

    constructor ()
      ensures Valid() && fresh(Repr()) && names == []
      ensures |idToName.View().buckets| == |nameToId.View().buckets| == 2
    {
      hide HashTable.Valid, HashTable.View, HashTable.Separate, Wf, IdsAndNames;
      var ids := new HashTable<Value>(HASHTABLE_INITIAL_NUM_BUCKETS);
      var names' := new HashTable<Key>(HASHTABLE_INITIAL_NUM_BUCKETS);
      assert ids.Repr !! names'.Repr;
      idToName, nameToId := ids, names';
      maxId := 1;
      names := [];
      new;
      NoNames();
    }

    // Registers a document.  One whose hash is there already keeps the id it
    // has, or gets that of another document with the same hash.
    method Add(docName: CString) returns (docId: Key)
      requires Valid() && |names| + 1 < TWO_64 - 1
      modifies Repr()
      ensures Valid() && fresh(Repr() - old(Repr()))
      ensures var known := IdOfHash(old(names), FNVHash64(docName));
              if known != INVALID_DOCID
              then docId == known && names == old(names) && idToName.View() == old(idToName.View())
              else docId == |names| && names == old(names) + [docName]
      ensures NameApart(old(names), docName) ==>
                NameOf(names, docId) == Some(docName) &&
                (names == old(names) <==> IdOf(old(names), docName) != INVALID_DOCID)
    {
      hide FNVHash64, HashTable.Valid, HashTable.View, HashTable.Separate, Find, Insert, Wf, NumElements, IdsAndNames,
        NameApart, IdOf, IdOfHash, NameOf;
      ghost var a, b := idToName.View(), nameToId.View();
      var result := FNVHash(docName);
      LookupHash(a, b, names, result);
      HashFindsName(a, b, names, docName);
      var oldKv := nameToId.Find(result);
      if oldKv.Some? {
        return oldKv.value;
      }
      OneMoreName(a, b, names, docName, maxId);
      NameOfSnoc(names, docName);
      docId := maxId;
      maxId := maxId + 1;
      names := names + [docName];
      var replaced := idToName.Insert(KV(docId, DocName(docName)));
      var replacedId := nameToId.Insert(KV(result, docId));
    }

    // The id of the registered document with this name's hash; it is the id of
    // this name exactly when no other name has the same hash.
    method GetDocID(docName: CString) returns (docId: Key)
      requires Valid()
      ensures docId == IdOfHash(names, FNVHash64(docName))
      ensures if docId == 0 then forall i :: 0 <= i < |names| ==> FNVHash64(names[i]) != FNVHash64(docName)
              else docId <= |names| && FNVHash64(names[docId - 1]) == FNVHash64(docName)
      ensures docId == IdOf(names, docName) <==> NameApart(names, docName)
    {
      hide FNVHash64, HashTable.Valid, HashTable.View, HashTable.Separate, Find, Wf, IdsAndNames, NameApart, IdOf,
        IdOfHash;
      FewNames(idToName.View(), nameToId.View(), names);
      HashFindsName(idToName.View(), nameToId.View(), names, docName);
      var key := FNVHash(docName);
      LookupHash(idToName.View(), nameToId.View(), names, key);
      IdsFromOne(names, key);
      var kv := nameToId.Find(key);
      docId := if kv.Some? then kv.value else INVALID_DOCID;
    }

    method GetDocName(docId: Key) returns (name: Option<CString>)
      requires Valid() && docId != INVALID_DOCID
      ensures name == NameOf(names, docId)
      ensures name == if docId <= |names| then Some(names[docId - 1]) else None
    {
      hide HashTable.Valid, HashTable.View, Find;
      var kv := idToName.Find(docId);
      name := if kv.Some? then Some(kv.value.name) else None;
    }
  }

  // Ids count from 1, in the order of registration; 0 means that no name has the hash.
  lemma IdsFromOne(names: seq<CString>, hash: Key)
    requires |names| < TWO_64
    ensures var d := IdOfHash(names, hash);
            if d == 0 then forall i :: 0 <= i < |names| ==> FNVHash64(names[i]) != hash
            else d <= |names| && FNVHash64(names[d - 1]) == hash
  {
    hide FNVHash64, IdOfHash;
    if IdOfHash(names, hash) == 0 {
      forall i | 0 <= i < |names| ensures FNVHash64(names[i]) != hash {
        assert NameOf(names, i + 1) == Some(names[i]);
      }
    }
  }

  lemma FewNames(idToName: Table<Value>, nameToId: Table<Key>, names: seq<CString>)
    requires IdsAndNames(idToName, nameToId, names)
    ensures |names| < TWO_64 - 1
  {
    hide FNVHash64;
  }

  // A run in which a collision shows: a second document gets the id of the
  // first, and its name is lost.
  method RegisterCollidingNames() returns (dt: DocTable, first: Key, second: Key, name: Option<CString>)
    ensures dt.Valid() && dt.names == [FIRST_STRING] && first == second == 1
    ensures name == Some(FIRST_STRING) != Some(SECOND_STRING)
  {
    hide FNVHash64, HashTable.Valid, HashTable.View, HashTable.Separate, Find, Wf, IdsAndNames, IdOf, IdOfHash,
      NameApart;
    StringsCollide();
    dt := new DocTable();
    first := dt.Add(FIRST_STRING);
    assert dt.names == [FIRST_STRING];
    assert NameOf(dt.names, 1) == Some(FIRST_STRING);
    second := dt.Add(SECOND_STRING);
    name := dt.GetDocName(second);
  }
}
