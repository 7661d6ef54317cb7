/**
 The record objects on S3 as startup finds them: the loop over the pages of a listing yields
 a complete listing of the committed records (src/storage.rs).
 */
module RecordObjects {
  import opened Wrappers
  import opened Sequences
  import opened Keys
  import opened Storage
  import opened Publication

  /** One object of a page, and what a get of it answers, None if that fails. */
  datatype Object = Object(key: Option<string>, size: Option<nat>, body: Option<seq<byte>>)

  /** It does not end the loop: it is not too large, and if it has a key a record can be read. */
  predicate Fetched(o: Object, parse: seq<byte> -> Option<Record>) {
    && (o.size.Some? ==> o.size.value <= MAX_LEGACY_RECORD_BYTES)
    && (o.key.Some? ==> o.body.Some? && Readable(o.body.value, parse))
  }

  predicate AllFetched(objects: seq<Object>, parse: seq<byte> -> Option<Record>) {
    forall i :: 0 <= i < |objects| ==> Fetched(objects[i], parse)
  }

  /** The records of the objects that have a key, in order. */
  function RecordsOf(objects: seq<Object>, parse: seq<byte> -> Option<Record>): seq<Record>
    requires AllFetched(objects, parse)
  {
    if objects == [] then []
    else
      var last := objects[|objects| - 1];
      RecordsOf(objects[..|objects| - 1], parse) + if last.key.Some? then [parse(last.body.value).value] else []
  }

  /** The objects of all pages. The request for a page may fail: None. */
  function ObjectsOf(pages: seq<Option<seq<Object>>>): seq<Object> {
    if pages == [] then []
    else
      var last := pages[|pages| - 1];
      ObjectsOf(pages[..|pages| - 1]) + if last.Some? then last.value else []
  }

  lemma AllFetchedConcat(a: seq<Object>, b: seq<Object>, parse: seq<byte> -> Option<Record>)
    ensures AllFetched(a + b, parse) <==> AllFetched(a, parse) && AllFetched(b, parse)
  {
    assert forall i :: 0 <= i < |a| ==> (a + b)[i] == a[i];
    assert forall i :: 0 <= i < |b| ==> (a + b)[|a| + i] == b[i];
  }

  lemma NextPage(pages: seq<Option<seq<Object>>>, p: nat)
    requires p < |pages| && pages[p].Some?
    ensures ObjectsOf(pages[..p + 1]) == ObjectsOf(pages[..p]) + pages[p].value
  {
    assert pages[..p + 1][..p] == pages[..p];
  }

  lemma {:induction false} BadObject(pages: seq<Option<seq<Object>>>, p: nat, parse: seq<byte> -> Option<Record>)
    requires p < |pages| && pages[p].Some? && !AllFetched(pages[p].value, parse)
    ensures !AllFetched(ObjectsOf(pages), parse)
  {
    var n := |pages| - 1;
    AllFetchedConcat(ObjectsOf(pages[..n]), if pages[n].Some? then pages[n].value else [], parse);
    if p < n {
      BadObject(pages[..n], p, parse);
    }
  }

  /**
   `records`: one request for each page, until a page has no continuation token. It yields the
   records of all keyed objects in order, or fails exactly when a request fails, an object is
   too large, or one cannot be fetched or read.
   */
  method ReadObjects(pages: seq<Option<seq<Object>>>, parse: seq<byte> -> Option<Record>)
    returns (r: Option<seq<Record>>)
    requires pages != []
    ensures r.Some? <==> (forall p :: 0 <= p < |pages| ==> pages[p].Some?) && AllFetched(ObjectsOf(pages), parse)
    ensures r.Some? ==> r.value == RecordsOf(ObjectsOf(pages), parse)
  {
    hide AllFetched, Fetched, RecordsOf;
    var result: seq<Record> := [];
    var token := Some(0);
    Nothing(parse);
    assert pages[..0] == [];
    while token.Some?
      invariant token.Some? ==> token.value < |pages|
      invariant var p := if token.Some? then token.value else |pages|;
                && (forall q :: 0 <= q < p ==> pages[q].Some?) && AllFetched(ObjectsOf(pages[..p]), parse)
                && result == RecordsOf(ObjectsOf(pages[..p]), parse)
      decreases |pages| - (if token.Some? then token.value else |pages|)
    {
      var p := token.value;
      if pages[p].None? {
        return None;
      }
      var ok;
      ok, result := ReadPage(ObjectsOf(pages[..p]), pages[p].value, result, parse);
      if !ok {
        BadObject(pages, p, parse);
        return None;
      }
      NextPage(pages, p);
      token := if p + 1 < |pages| then Some(p + 1) else None;
    }
    assert pages[..|pages|] == pages;
    return Some(result);
  }

  lemma Nothing(parse: seq<byte> -> Option<Record>)
    ensures AllFetched([], parse) && RecordsOf([], parse) == [] && ObjectsOf([]) == []
  {
  }

  /** The loop over the objects of one page. */
  method ReadPage(ghost before: seq<Object>, page: seq<Object>, result0: seq<Record>,
                  parse: seq<byte> -> Option<Record>)
    returns (ok: bool, result: seq<Record>)
    requires AllFetched(before, parse) && result0 == RecordsOf(before, parse)
    ensures ok <==> AllFetched(page, parse)
    ensures ok ==> AllFetched(before + page, parse) && result == RecordsOf(before + page, parse)
  {
    hide RecordsOf;
    result := result0;
    assert before + page[..0] == before;
    for i := 0 to |page|
      invariant AllFetched(page[..i], parse) && AllFetched(before + page[..i], parse)
      invariant result == RecordsOf(before + page[..i], parse)
    {
      var item := page[i];
      if item.size.Some? && item.size.value > MAX_LEGACY_RECORD_BYTES {
        return false, result;
      }
      if item.key.Some? {
        if item.body.None? || !Readable(item.body.value, parse) {
          return false, result;
        }
        result := result + [parse(item.body.value).value];
      }
      NextRecord(before + page[..i], item, parse);
      assert before + page[..i + 1] == before + page[..i] + [item];
    }
    assert page[..|page|] == page;
    ok := true;
  }

  lemma NextRecord(objects: seq<Object>, last: Object, parse: seq<byte> -> Option<Record>)
    requires AllFetched(objects, parse) && Fetched(last, parse)
    ensures AllFetched(objects + [last], parse)
    ensures RecordsOf(objects + [last], parse)
         == RecordsOf(objects, parse) + if last.key.Some? then [parse(last.body.value).value] else []
  {
    assert (objects + [last])[..|objects|] == objects;
  }

  // The bucket.

  /** The objects under the record prefix hold exactly these records, each under its key. */
  ghost predicate BucketHolds(bucket: map<string, seq<byte>>, prefix: string, records: map<Place, Record>,
                              parse: seq<byte> -> Option<Record>) {
    && (forall p :: p in records ==> p == Structured(records[p].key) && RecordKey(prefix, records[p].key) in bucket)
    && (forall name :: name in bucket && UnderPrefix(prefix, "records/") <= name ==>
          exists p :: p in records && RecordKey(prefix, records[p].key) == name
            && parse(bucket[name]) == Some(records[p]))
  }

  /** Each object under the record prefix is shown once, with its key, and fetched as it is. */
  ghost predicate ShowsBucket(objects: seq<Object>, bucket: map<string, seq<byte>>, prefix: string) {
    && (forall i :: 0 <= i < |objects| ==>
          && objects[i].key.Some? && objects[i].key.value in bucket
          && UnderPrefix(prefix, "records/") <= objects[i].key.value
          && (objects[i].body.Some? ==> objects[i].body.value == bucket[objects[i].key.value]))
    && (forall i, j :: 0 <= i < j < |objects| ==> objects[i].key != objects[j].key)
    && (forall name :: name in bucket && UnderPrefix(prefix, "records/") <= name ==>
          exists i :: 0 <= i < |objects| && objects[i].key == Some(name))
  }

  lemma {:induction false} OneEach(objects: seq<Object>, parse: seq<byte> -> Option<Record>)
    requires AllFetched(objects, parse) && forall i :: 0 <= i < |objects| ==> objects[i].key.Some?
    ensures |RecordsOf(objects, parse)| == |objects|
    ensures forall i :: 0 <= i < |objects| ==> RecordsOf(objects, parse)[i] == parse(objects[i].body.value).value
  {
    if objects != [] {
      OneEach(objects[..|objects| - 1], parse);
    }
  }

  lemma InBucket(bucket: map<string, seq<byte>>, prefix: string, records: map<Place, Record>,
                 parse: seq<byte> -> Option<Record>, name: string)
    requires BucketHolds(bucket, prefix, records, parse) && name in bucket && UnderPrefix(prefix, "records/") <= name
    ensures parse(bucket[name]).Some?
    ensures var r := parse(bucket[name]).value;
            Structured(r.key) in records && records[Structured(r.key)] == r && RecordKey(prefix, r.key) == name
  {
    var p :| p in records && RecordKey(prefix, records[p].key) == name && parse(bucket[name]) == Some(records[p]);
  }

  lemma HasPrefix(prefix: string, k: Key)
    ensures UnderPrefix(prefix, "records/") <= RecordKey(prefix, k)
  {
    var rest := k.namespace + "/" + k.name + "/" + k.version + ".json";
    assert "records/" + rest == "records/" + k.namespace + "/" + k.name + "/" + k.version + ".json";
    assert RecordKey(prefix, k) == UnderPrefix(prefix, "records/") + rest;
  }

  /** Whatever the pages are, what `records` returns for such a bucket is a complete listing. */
  lemma ObjectsAreListed(s: State, prefix: string, bucket: map<string, seq<byte>>, objects: seq<Object>,
                         parse: seq<byte> -> Option<Record>)
    requires s.backend == S3 && BucketHolds(bucket, prefix, s.disk.records, parse)
    requires ShowsBucket(objects, bucket, prefix) && AllFetched(objects, parse)
    requires forall p :: p in s.disk.records ==> ValidKey(s.disk.records[p].key)
    ensures Lists(RecordsOf(objects, parse), s) && |RecordsOf(objects, parse)| == |objects|
  {
    hide RecordsOf, Known, BucketHolds, ShowsBucket, AllFetched, ValidKey, RecordKey;
    var listing := RecordsOf(objects, parse);
    CountsObjects(objects, bucket, prefix, parse);
    forall r | r in listing ensures Known(s, r) {
      var i :| 0 <= i < |listing| && listing[i] == r;
      ListedIsKnown(s, prefix, bucket, objects, parse, i);
    }
    forall p | p in s.disk.records ensures s.disk.records[p] in listing {
      RecordIsListed(s, prefix, bucket, objects, parse, p);
    }
    forall i, j | 0 <= i < j < |listing| ensures listing[i].key != listing[j].key {
      ListedIsKnown(s, prefix, bucket, objects, parse, i);
      ListedIsKnown(s, prefix, bucket, objects, parse, j);
      NoneTwice(objects, bucket, prefix, i, j);
    }
  }

  lemma CountsObjects(objects: seq<Object>, bucket: map<string, seq<byte>>, prefix: string,
                      parse: seq<byte> -> Option<Record>)
    requires ShowsBucket(objects, bucket, prefix) && AllFetched(objects, parse)
    ensures |RecordsOf(objects, parse)| == |objects|
  {
    OneEach(objects, parse);
  }

  lemma NoneTwice(objects: seq<Object>, bucket: map<string, seq<byte>>, prefix: string, i: nat, j: nat)
    requires ShowsBucket(objects, bucket, prefix) && i < j < |objects|
    ensures objects[i].key != objects[j].key
  {
  }

  lemma ListedIsKnown(s: State, prefix: string, bucket: map<string, seq<byte>>, objects: seq<Object>,
                      parse: seq<byte> -> Option<Record>, i: nat)
    requires s.backend == S3 && BucketHolds(bucket, prefix, s.disk.records, parse)
    requires ShowsBucket(objects, bucket, prefix) && AllFetched(objects, parse) && i < |objects|
    ensures i < |RecordsOf(objects, parse)| && Known(s, RecordsOf(objects, parse)[i])
    ensures objects[i].key == Some(RecordKey(prefix, RecordsOf(objects, parse)[i].key))
  {
    hide RecordsOf, Structured, RecordKey, BucketHolds, UnderPrefix;
    InBucket(bucket, prefix, s.disk.records, parse, objects[i].key.value);
    OneEach(objects, parse);
  }

  lemma RecordIsListed(s: State, prefix: string, bucket: map<string, seq<byte>>, objects: seq<Object>,
                       parse: seq<byte> -> Option<Record>, p: Place)
    requires s.backend == S3 && BucketHolds(bucket, prefix, s.disk.records, parse)
    requires ShowsBucket(objects, bucket, prefix) && AllFetched(objects, parse) && p in s.disk.records
    requires forall q :: q in s.disk.records ==> ValidKey(s.disk.records[q].key)
    ensures s.disk.records[p] in RecordsOf(objects, parse)
  {
    hide RecordsOf, Structured, RecordKey, UnderPrefix, ValidKey;
    var key := s.disk.records[p].key;
    var name := RecordKey(prefix, key);
    HasPrefix(prefix, key);
    InBucket(bucket, prefix, s.disk.records, parse, name);
    var r := parse(bucket[name]).value;
    RecordKeysAreInjective(prefix, key, r.key);
    OneEach(objects, parse);
    var i :| 0 <= i < |objects| && objects[i].key == Some(name);
    assert RecordsOf(objects, parse)[i] == r;
  }
}
