/**
 Lookup of one record (src/storage.rs): the structured place first, then the legacy one, then
 the check that the record found is the one asked for. Records of both ages are stored.
 */
module RecordLookup {
  import opened Wrappers
  import opened Keys
  import opened Storage

  /** What reading a place yields. `Failed` is any error but a missing file, say a directory there. */
  datatype Read = Data(bytes: seq<byte>) | Absent | Failed

  datatype LookupError = InvalidKey | NotFound | Unreadable | Oversized | Malformed | Mismatch

  /** Where a backend keeps the record of a key, and where it kept legacy ones. */
  datatype Places<P> = Places(structured: Key -> P, legacy: Key -> P)

  function ObjectPlaces(prefix: string): Places<string> {
    Places(k => RecordKey(prefix, k), k => LegacyKey(prefix, k))
  }

  function FilePlaces(): Places<seq<string>> {
    Places(RecordPath, LegacyPath)
  }

  /** `record_sync`, and `record` of the S3 backend. */
  function Lookup<P>(read: P -> Read, places: Places<P>, k: Key, parse: seq<byte> -> Option<Record>):
    Result<Record, LookupError>
  {
    if !ValidKey(k) then Err(InvalidKey)
    else
      var first := read(places.structured(k));
      match if first.Absent? then read(places.legacy(k)) else first
      case Absent => Err(NotFound)
      case Failed => Err(Unreadable)
      case Data(data) =>
        if |data| > MAX_LEGACY_RECORD_BYTES then Err(Oversized)
        else
          match parse(data)
          case None => Err(Malformed)
          case Some(record) => if record.key != k then Err(Mismatch) else Ok(record)
  }

  /** The place that decides, the legacy one only if there is nothing at the structured one. */
  ghost predicate Decides<P(!new)>(read: P -> Read, places: Places<P>, k: Key, p: P) {
    || (p == places.structured(k) && !read(p).Absent?)
    || (p == places.legacy(k) && read(places.structured(k)).Absent?)
  }

  /**
   Whatever is stored, damaged or not: each outcome by what is read at the place that decides.
   So a record that is returned has the key asked for and was read from one of its two places.
   */
  lemma LookupByPlace<P(!new)>(read: P -> Read, places: Places<P>, k: Key, parse: seq<byte> -> Option<Record>, p: P)
    requires Decides(read, places, k, p)
    ensures var found, data := Lookup(read, places, k, parse), read(p);
            && (found == Err(InvalidKey) <==> !ValidKey(k))
            && (ValidKey(k) ==>
                  && (found == Err(NotFound) <==> data.Absent?) && (found == Err(Unreadable) <==> data.Failed?)
                  && (found == Err(Oversized) <==> data.Data? && |data.bytes| > MAX_LEGACY_RECORD_BYTES)
                  && (found == Err(Malformed) <==>
                        data.Data? && |data.bytes| <= MAX_LEGACY_RECORD_BYTES && parse(data.bytes).None?)
                  && (forall r: Record :: Reads(data, r, parse) ==>
                        (found == Ok(r) <==> r.key == k) && (found == Err(Mismatch) <==> r.key != k)))
            && (forall r :: found == Ok(r) ==> ValidKey(k) && r.key == k && Reads(data, r, parse))
  {
    hide ValidKey;
  }

  /** All records, those with a structured place and the legacy ones. */
  datatype Store = Store(structured: map<Key, Record>, legacy: map<Key, Record>)

  predicate Reads(found: Read, record: Record, parse: seq<byte> -> Option<Record>) {
    found.Data? && |found.bytes| <= MAX_LEGACY_RECORD_BYTES && parse(found.bytes) == Some(record)
  }

  /** The record of `k` is at the place `p`. */
  predicate Owns<P(==)>(store: Store, places: Places<P>, k: Key, p: P) {
    (k in store.structured && places.structured(k) == p) || (k in store.legacy && places.legacy(k) == p)
  }

  ghost predicate Taken<P>(store: Store, places: Places<P>, p: P) {
    exists k :: Owns(store, places, k, p)
  }

  /** The backend holds exactly these records, each at its place. Reading other places may fail. */
  ghost predicate Holds<P(!new)>(read: P -> Read, places: Places<P>, store: Store, parse: seq<byte> -> Option<Record>) {
    && (forall k :: k in store.structured ==>
          ValidKey(k) && store.structured[k].key == k && Reads(read(places.structured(k)), store.structured[k], parse))
    && (forall k :: k in store.legacy ==>
          ValidKey(k) && store.legacy[k].key == k && Reads(read(places.legacy(k)), store.legacy[k], parse))
    && (forall p :: read(p).Data? ==> Taken(store, places, p))
  }

  ghost predicate Unpublished(store: Store, k: Key) {
    k !in store.structured && k !in store.legacy
  }

  /** Whose record is read at a place is whose record is there, so at most one. */
  lemma OneOwner<P(!new)>(read: P -> Read, places: Places<P>, store: Store, parse: seq<byte> -> Option<Record>,
                          k: Key, p: P)
    requires Holds(read, places, store, parse) && Owns(store, places, k, p)
    ensures read(p).Data? && |read(p).bytes| <= MAX_LEGACY_RECORD_BYTES && parse(read(p).bytes).Some?
    ensures parse(read(p).bytes).value.key == k
    ensures k in store.structured && places.structured(k) == p ==> parse(read(p).bytes) == Some(store.structured[k])
    ensures k in store.legacy && places.legacy(k) == p ==> parse(read(p).bytes) == Some(store.legacy[k])
  {
  }

  /** What a lookup returns depends only on what owns the two places of the key. */
  lemma LookupIsExact<P(!new)>(read: P -> Read, places: Places<P>, store: Store, parse: seq<byte> -> Option<Record>,
                               k: Key, r: Record)
    requires Holds(read, places, store, parse) && ValidKey(k) && places.structured(k) != places.legacy(k)
    ensures var first, second := read(places.structured(k)), read(places.legacy(k));
            && (Lookup(read, places, k, parse) == Ok(r) <==>
                  || (k in store.structured && store.structured[k] == r)
                  || (k !in store.structured && first.Absent? && k in store.legacy && store.legacy[k] == r))
            && (Lookup(read, places, k, parse) == Err(Mismatch) <==>
                  k !in store.structured && (first.Data? || (first.Absent? && k !in store.legacy && second.Data?)))
            && (Lookup(read, places, k, parse) == Err(NotFound) <==> first.Absent? && second.Absent?)
            && (Lookup(read, places, k, parse) == Err(Unreadable) <==>
              first.Failed? || (first.Absent? && second.Failed?))
            && Lookup(read, places, k, parse) !in {Err(InvalidKey), Err(Oversized), Err(Malformed)}
  {
    hide Holds, ValidKey;
    LookedAt(read, places, store, parse, k, places.structured(k));
    LookedAt(read, places, store, parse, k, places.legacy(k));
  }

  lemma LookedAt<P(!new)>(read: P -> Read, places: Places<P>, store: Store, parse: seq<byte> -> Option<Record>,
                          k: Key, p: P)
    requires Holds(read, places, store, parse)
    ensures read(p).Data? <==> Taken(store, places, p)
    ensures read(p).Data? ==> |read(p).bytes| <= MAX_LEGACY_RECORD_BYTES && parse(read(p).bytes).Some?
    ensures read(p).Data? ==> (parse(read(p).bytes).value.key == k <==> Owns(store, places, k, p))
    ensures k in store.structured && places.structured(k) == p ==>
              read(p).Data? && parse(read(p).bytes) == Some(store.structured[k])
    ensures k in store.legacy && places.legacy(k) == p ==>
              read(p).Data? && parse(read(p).bytes) == Some(store.legacy[k])
  {
    if read(p).Data? {
      var o :| Owns(store, places, o, p);
      OneOwner(read, places, store, parse, o, p);
    }
    if Owns(store, places, k, p) {
      OneOwner(read, places, store, parse, k, p);
    }
    if Taken(store, places, p) {
      var o :| Owns(store, places, o, p);
      OneOwner(read, places, store, parse, o, p);
    }
  }

  /** Another legacy record stands under the one name that this key had as well. */
  ghost predicate LegacyTaken(store: Store, name: string) {
    exists o :: o in store.legacy && LegacyName(o) == name
  }

  /**
   On S3 a lookup returns exactly the record published for the key, and a legacy record only
   where there is no newer one. It reports a mismatch exactly if the key was never published
   and its legacy name stands for another key, and a missing record exactly if nobody has it.
   */
  lemma ObjectLookupIsExact(read: string -> Read, prefix: string, store: Store, parse: seq<byte> -> Option<Record>,
                            k: Key, r: Record)
    requires Holds(read, ObjectPlaces(prefix), store, parse) && ValidKey(k)
    ensures var found := Lookup(read, ObjectPlaces(prefix), k, parse);
            var structuredFails, legacyFails := read(RecordKey(prefix, k)).Failed?, read(LegacyKey(prefix, k)).Failed?;
            && (found == Ok(r) <==>
                  || (k in store.structured && store.structured[k] == r)
                  || (k !in store.structured && k in store.legacy && store.legacy[k] == r && !structuredFails))
            && (found == Err(Mismatch) <==>
                  Unpublished(store, k) && LegacyTaken(store, LegacyName(k)) && !structuredFails)
            && (found == Err(NotFound) <==>
                  Unpublished(store, k) && !LegacyTaken(store, LegacyName(k)) && !structuredFails && !legacyFails)
  {
    var places := ObjectPlaces(prefix);
    ObjectOwners(prefix, store, k);
    RecordKeysAreInjective(prefix, k, k);
    hide Holds, ValidKey, Taken;
    LookedAt(read, places, store, parse, k, RecordKey(prefix, k));
    LookedAt(read, places, store, parse, k, LegacyKey(prefix, k));
    LookupIsExact(read, places, store, parse, k, r);
  }

  lemma ObjectOwners(prefix: string, store: Store, k: Key)
    requires ValidKey(k) && forall o :: o in store.structured || o in store.legacy ==> ValidKey(o)
    ensures Taken(store, ObjectPlaces(prefix), RecordKey(prefix, k)) <==> k in store.structured
    ensures Taken(store, ObjectPlaces(prefix), LegacyKey(prefix, k)) <==> LegacyTaken(store, LegacyName(k))
  {
    var places := ObjectPlaces(prefix);
    hide ValidKey, RecordKey, LegacyKey, LegacyName;
    forall o | o in store.structured
      ensures RecordKey(prefix, o) == RecordKey(prefix, k) <==> o == k
      ensures RecordKey(prefix, o) != LegacyKey(prefix, k)
    {
      RecordKeysAreInjective(prefix, o, k);
    }
    forall o | o in store.legacy
      ensures LegacyKey(prefix, o) != RecordKey(prefix, k)
      ensures LegacyKey(prefix, o) == LegacyKey(prefix, k) <==> LegacyName(o) == LegacyName(k)
    {
      RecordKeysAreInjective(prefix, k, o);
      SameLegacyName(prefix, o, k);
    }
    if k in store.structured {
      assert Owns(store, places, k, RecordKey(prefix, k));
    }
    if LegacyTaken(store, LegacyName(k)) {
      var o :| o in store.legacy && LegacyName(o) == LegacyName(k);
      assert Owns(store, places, o, LegacyKey(prefix, k));
    }
  }

  /** On local disk another record is at the structured path of this key. */
  ghost predicate PathTaken(store: Store, k: Key) {
    (OneDot(k) && Twin(k) in store.structured) || (TwoDots(k) && LegacyTaken(store, k.version))
  }

  /** Some record is at its legacy path. */
  ghost predicate LegacyPathTaken(store: Store, k: Key) {
    LegacyTaken(store, LegacyName(k)) || Key(".", ".", LegacyName(k)) in store.structured
  }

  /**
   On local disk the same holds up to single-dot names, which the system drops from paths: they
   let another record stand at either path, and then the lookup reports a mismatch.
   */
  lemma FileLookupIsExact(read: seq<string> -> Read, store: Store, parse: seq<byte> -> Option<Record>, k: Key,
                          r: Record)
    requires Holds(read, FilePlaces(), store, parse) && ValidKey(k)
    ensures var found, structuredFails := Lookup(read, FilePlaces(), k, parse), read(RecordPath(k)).Failed?;
            && (found == Ok(r) <==>
                  || (k in store.structured && store.structured[k] == r)
                  || (k !in store.structured && k in store.legacy && store.legacy[k] == r
                      && !PathTaken(store, k) && !structuredFails))
            && (found == Err(Mismatch) <==>
                  && k !in store.structured
                  && (PathTaken(store, k) || (k !in store.legacy && LegacyPathTaken(store, k) && !structuredFails)))
  {
    FileOutcome(read, store, parse, k, r);
  }

  /** A key that nobody published is reported missing exactly unless another record is at one of its paths. */
  lemma UnpublishedIsNotFound(read: seq<string> -> Read, store: Store, parse: seq<byte> -> Option<Record>, k: Key)
    requires Holds(read, FilePlaces(), store, parse) && ValidKey(k)
    ensures var structuredFails, legacyFails := read(RecordPath(k)).Failed?, read(LegacyPath(k)).Failed?;
            Lookup(read, FilePlaces(), k, parse) == Err(NotFound) <==>
              && Unpublished(store, k) && !PathTaken(store, k) && !LegacyPathTaken(store, k)
              && !structuredFails && !legacyFails
  {
    FileOutcome(read, store, parse, k, Record(k, "", 0, "", 0));
  }

  lemma FileOutcome(read: seq<string> -> Read, store: Store, parse: seq<byte> -> Option<Record>, k: Key, r: Record)
    requires Holds(read, FilePlaces(), store, parse) && ValidKey(k)
    ensures var first, second := read(RecordPath(k)), read(LegacyPath(k));
            && (first.Data? <==> k in store.structured || PathTaken(store, k))
            && (second.Data? <==> LegacyPathTaken(store, k)) && (k in store.legacy ==> second.Data?)
            && (Lookup(read, FilePlaces(), k, parse) == Ok(r) <==>
                  || (k in store.structured && store.structured[k] == r)
                  || (k !in store.structured && first.Absent? && k in store.legacy && store.legacy[k] == r))
            && (Lookup(read, FilePlaces(), k, parse) == Err(Mismatch) <==>
                  k !in store.structured && (first.Data? || (first.Absent? && k !in store.legacy && second.Data?)))
            && (Lookup(read, FilePlaces(), k, parse) == Err(NotFound) <==> first.Absent? && second.Absent?)
  {
    var places := FilePlaces();
    FileOwners(store, k);
    LegacyPathIff(k, k);
    assert TwoDots(k) ==> |LegacyName(k)| > |k.version|;
    hide Holds, ValidKey, Taken;
    LookedAt(read, places, store, parse, k, RecordPath(k));
    LookedAt(read, places, store, parse, k, LegacyPath(k));
    LookupIsExact(read, places, store, parse, k, r);
  }

  lemma FileOwners(store: Store, k: Key)
    ensures Taken(store, FilePlaces(), RecordPath(k)) <==> k in store.structured || PathTaken(store, k)
    ensures Taken(store, FilePlaces(), LegacyPath(k)) <==> LegacyPathTaken(store, k)
  {
    var places, dots := FilePlaces(), Key(".", ".", LegacyName(k));
    hide RecordPath, LegacyPath, LegacyName;
    forall o ensures RecordPath(o) == RecordPath(k) <==> o == k || (OneDot(k) && o == Twin(k))
             ensures RecordPath(o) == LegacyPath(k) <==> o == dots {
      SamePathIff(k, o);
      LegacyPathIff(o, k);
    }
    forall o ensures LegacyPath(o) == RecordPath(k) <==> TwoDots(k) && LegacyName(o) == k.version
             ensures LegacyPath(o) == LegacyPath(k) <==> LegacyName(o) == LegacyName(k) {
      LegacyPathIff(k, o);
      SameLegacyPath(o, k);
    }
    if k in store.structured {
      assert Owns(store, places, k, RecordPath(k));
    }
    if OneDot(k) && Twin(k) in store.structured {
      assert Owns(store, places, Twin(k), RecordPath(k));
    }
    if TwoDots(k) && LegacyTaken(store, k.version) {
      var o :| o in store.legacy && LegacyName(o) == k.version;
      assert Owns(store, places, o, RecordPath(k));
    }
    if LegacyTaken(store, LegacyName(k)) {
      var o :| o in store.legacy && LegacyName(o) == LegacyName(k);
      assert Owns(store, places, o, LegacyPath(k));
    }
    if dots in store.structured {
      assert Owns(store, places, dots, LegacyPath(k));
    }
  }

  lemma SameLegacyPath(a: Key, b: Key)
    ensures LegacyPath(a) == LegacyPath(b) <==> LegacyName(a) == LegacyName(b)
  {
    PathShape(a);
    PathShape(b);
    SameLegacyName("", a, b);
  }
}
