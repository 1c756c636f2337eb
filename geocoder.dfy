/**
 * The geocode store (app/geocoder.py): a collection of documents, one per
 * address, each carrying the results of the geocoding providers and, per
 * provider, a "processed" marker.  The MongoDB collection is a sequence of
 * documents, a provider is an oracle that answers the n-th lookup, and the
 * current time is a parameter.
 */
module Geocoder {
  import opened Wrappers

  /** The moment a geocoding run started (`datetime.now()`), taken as given. */
  type Timestamp = int

  /** A geopy `Location`; coordinates are carried as reals and never computed with. */
  datatype Location = Location(address: string, altitude: real, latitude: real, longitude: real,
                               raw: map<string, string>)

  /** What one call of `provider.geocode(address)` gives: a location or `None`, or one of two exceptions. */
  datatype Outcome = Answer(location: Option<Location>) | TimedOut | QuotaExceeded

  /**
   * A provider (app/geocoding/provider.py): its identifier, the keys of the
   * raw answer it keeps, its request cap (-1 for none) and its answers, the
   * n-th lookup of an address giving `lookup(n, address)`.
   */
  datatype Provider = Provider(identifier: string, rawLocationKeys: seq<string>, maxRequests: int,
                               lookup: (nat, string) -> Outcome)

  /** The result a provider stores under its identifier. */
  datatype Slot = Slot(address: string, altitude: real, latitude: real, longitude: real,
                       raw: map<string, Option<string>>)

  /** A value inside a document's `geocoded` object. */
  datatype Field = Marker(time: Timestamp) | Geocoding(slot: Slot) | Null

  datatype Document = Document(address: string, geocoded: map<string, Field>)

  /** `UpdateOne({"address": address}, {"$set": {"geocoded.<k>": v, ...}})`. */
  datatype Update = Update(address: string, fields: map<string, Field>)

  /** One `bulk_write` call. */
  datatype Write = Inserts(documents: seq<Document>) | Updates(operations: seq<Update>)

  // ---------------------------------------------------------------------------
  // The collection's semantics
  // ---------------------------------------------------------------------------

  /** Index of the first document with the address, which is the one `UpdateOne` changes. */
  function FirstWithAddress(docs: seq<Document>, address: string, from: nat): (r: Option<nat>)
    ensures r.Some? ==> from <= r.value < |docs| && docs[r.value].address == address
    ensures r.Some? ==> forall j :: from <= j < r.value ==> docs[j].address != address
    ensures r.None? ==> forall j :: from <= j < |docs| ==> docs[j].address != address
    decreases |docs| - from
  {
    if from >= |docs| then None
    else if docs[from].address == address then Some(from)
    else FirstWithAddress(docs, address, from + 1)
  }

  /** Sets the fields on the first document with the address; without one nothing happens (no upsert). */
  function Apply(docs: seq<Document>, u: Update): (r: seq<Document>)
    ensures |r| == |docs|
    ensures forall j :: 0 <= j < |docs| ==> r[j].address == docs[j].address
    ensures FirstWithAddress(docs, u.address, 0).None? ==> r == docs
    ensures FirstWithAddress(docs, u.address, 0).Some? ==>
              var j := FirstWithAddress(docs, u.address, 0).value;
              r[j].geocoded == docs[j].geocoded + u.fields &&
              forall k :: 0 <= k < |docs| && k != j ==> r[k] == docs[k]
  {
    match FirstWithAddress(docs, u.address, 0)
    case Some(j) => docs[j := Document(u.address, docs[j].geocoded + u.fields)]
    case None => docs
  }

  /** A bulk write of updates, applied in order. */
  function ApplyAll(docs: seq<Document>, us: seq<Update>): (r: seq<Document>)
    ensures |r| == |docs|
    ensures forall j :: 0 <= j < |docs| ==> r[j].address == docs[j].address
    decreases |us|
  {
    if us == [] then docs else ApplyAll(Apply(docs, us[0]), us[1..])
  }

  /** Two bulk writes in a row are one bulk write of both. */
  lemma {:induction false} ApplyAllAppend(docs: seq<Document>, a: seq<Update>, b: seq<Update>)
    ensures ApplyAll(docs, a + b) == ApplyAll(ApplyAll(docs, a), b)
    decreases |a|
  {
    if a == [] {
      assert a + b == b;
    } else {
      assert (a + b)[0] == a[0] && (a + b)[1..] == a[1..] + b;
      ApplyAllAppend(Apply(docs, a[0]), a[1..], b);
    }
  }

  /** `{"geocoded.<key>": None}`: the marker is absent or null. */
  predicate IsUnprocessed(d: Document, key: string) {
    key !in d.geocoded || d.geocoded[key] == Null
  }

  /** The addresses of the documents a run visits, in collection order. */
  function Unprocessed(docs: seq<Document>, key: string): (addresses: seq<string>)
    ensures |addresses| <= |docs|
    ensures forall a :: a in addresses ==> exists d :: d in docs && d.address == a && IsUnprocessed(d, key)
    ensures forall d :: d in docs && IsUnprocessed(d, key) ==> d.address in addresses
  {
    if docs == [] then []
    else (if IsUnprocessed(docs[0], key) then [docs[0].address] else []) + Unprocessed(docs[1..], key)
  }

  /** An update that sets the marker marks the document it changes, so a later run does not visit it for that reason. */
  lemma AppliedIsProcessed(docs: seq<Document>, u: Update, key: string)
    requires key in u.fields && u.fields[key].Marker?
    requires FirstWithAddress(docs, u.address, 0).Some?
    ensures !IsUnprocessed(Apply(docs, u)[FirstWithAddress(docs, u.address, 0).value], key)
  {
  }

  /** An update that sets the key, if at all, to something other than null. */
  predicate KeepsMarks(u: Update, key: string) {
    key in u.fields ==> u.fields[key] != Null
  }

  /** A marked document stays marked under an update that does not null the marker. */
  lemma ApplyKeepsMarked(docs: seq<Document>, u: Update, j: nat, key: string)
    requires j < |docs| && !IsUnprocessed(docs[j], key) && KeepsMarks(u, key)
    ensures !IsUnprocessed(Apply(docs, u)[j], key)
  {
  }

  /** A marked document stays marked through a whole bulk write of such updates. */
  lemma {:induction false} ApplyAllKeepsMarked(docs: seq<Document>, us: seq<Update>, j: nat, key: string)
    requires j < |docs| && !IsUnprocessed(docs[j], key)
    requires forall u :: u in us ==> KeepsMarks(u, key)
    ensures !IsUnprocessed(ApplyAll(docs, us)[j], key)
    decreases |us|
  {
    if us != [] {
      ApplyKeepsMarked(docs, us[0], j, key);
      ApplyAllKeepsMarked(Apply(docs, us[0]), us[1..], j, key);
    }
  }

  /** Documents with the same addresses, in the same order, have the same first document for every address. */
  lemma {:induction false} SameAddressesSameFirst(a: seq<Document>, b: seq<Document>, address: string, from: nat)
    requires |a| == |b| && forall k :: 0 <= k < |a| ==> a[k].address == b[k].address
    ensures FirstWithAddress(a, address, from) == FirstWithAddress(b, address, from)
    decreases |a| - from
  {
    if from < |a| {
      SameAddressesSameFirst(a, b, address, from + 1);
    }
  }

  /**
   * After a bulk write of updates that set the marker, the first document
   * with each updated address carries the marker.
   */
  lemma ApplyAllMarksUpdated(docs: seq<Document>, us: seq<Update>, key: string)
    requires forall u :: u in us ==> key in u.fields && u.fields[key].Marker?
    ensures forall u :: u in us && FirstWithAddress(docs, u.address, 0).Some? ==>
              !IsUnprocessed(ApplyAll(docs, us)[FirstWithAddress(docs, u.address, 0).value], key)
  {
    forall u | u in us && FirstWithAddress(docs, u.address, 0).Some?
      ensures !IsUnprocessed(ApplyAll(docs, us)[FirstWithAddress(docs, u.address, 0).value], key)
    {
      MarkedAfter(docs, us, u, key);
    }
  }

  /** One update of the bulk write: marked by itself, or by the same update later in the write. */
  lemma {:induction false} MarkedAfter(docs: seq<Document>, us: seq<Update>, u: Update, key: string)
    requires u in us && FirstWithAddress(docs, u.address, 0).Some?
    requires forall v :: v in us ==> key in v.fields && v.fields[key].Marker?
    ensures !IsUnprocessed(ApplyAll(docs, us)[FirstWithAddress(docs, u.address, 0).value], key)
    decreases |us|
  {
    assert us == [us[0]] + us[1..];
    if u == us[0] {
      MarkedByFirst(docs, us, key);
    } else {
      SameAddressesSameFirst(Apply(docs, us[0]), docs, u.address, 0);
      MarkedAfter(Apply(docs, us[0]), us[1..], u, key);
    }
  }

  /** The first update of a bulk write marks its document, and the later ones keep the mark. */
  lemma MarkedByFirst(docs: seq<Document>, us: seq<Update>, key: string)
    requires us != [] && FirstWithAddress(docs, us[0].address, 0).Some?
    requires forall v :: v in us ==> key in v.fields && v.fields[key].Marker?
    ensures !IsUnprocessed(ApplyAll(docs, us)[FirstWithAddress(docs, us[0].address, 0).value], key)
  {
    forall v | v in us[1..] ensures KeepsMarks(v, key) {
      assert v in us;
    }
    AppliedIsProcessed(docs, us[0], key);
    ApplyAllKeepsMarked(Apply(docs, us[0]), us[1..], FirstWithAddress(docs, us[0].address, 0).value, key);
  }

  // ---------------------------------------------------------------------------
  // `update_addresses`
  // ---------------------------------------------------------------------------

  function AddressesOf(docs: seq<Document>): set<string> {
    set d | d in docs :: d.address
  }

  /** `[x for x in addresses if x not in existing]`: order and repeats kept. */
  function Fresh(addresses: seq<string>, existing: set<string>): (r: seq<string>)
    ensures forall a :: a in r ==> a in addresses && a !in existing
  {
    if addresses == [] then []
    else (if addresses[0] in existing then [] else [addresses[0]]) + Fresh(addresses[1..], existing)
  }

  /** Every new address is inserted as often as the input lists it; a stored one not at all. */
  lemma {:induction false} FreshCounts(addresses: seq<string>, existing: set<string>, a: string)
    ensures multiset(Fresh(addresses, existing))[a] == if a in existing then 0 else multiset(addresses)[a]
  {
    if addresses != [] {
      FreshCounts(addresses[1..], existing, a);
      assert addresses == [addresses[0]] + addresses[1..];
    }
  }

  /** The documents `update_addresses` inserts: one with an empty `geocoded` object per new address. */
  function NewDocuments(addresses: seq<string>, docs: seq<Document>): (r: seq<Document>)
    ensures |r| == |Fresh(addresses, AddressesOf(docs))|
    ensures forall j :: 0 <= j < |r| ==> r[j] == Document(Fresh(addresses, AddressesOf(docs))[j], map[])
  {
    var unseen := Fresh(addresses, AddressesOf(docs));
    seq(|unseen|, j requires 0 <= j < |unseen| => Document(unseen[j], map[]))
  }

  /** Once the addresses are stored, storing them again inserts nothing. */
  lemma SecondUpdateInsertsNothing(addresses: seq<string>, docs: seq<Document>)
    ensures NewDocuments(addresses, docs + NewDocuments(addresses, docs)) == []
  {
    var added := docs + NewDocuments(addresses, docs);
    FreshOfStored(addresses, docs, added);
  }

  lemma {:induction false} FreshOfStored(addresses: seq<string>, docs: seq<Document>, added: seq<Document>)
    requires added == docs + NewDocuments(addresses, docs)
    ensures Fresh(addresses, AddressesOf(added)) == []
  {
    var unseen := Fresh(addresses, AddressesOf(docs));
    forall a | a in addresses ensures a in AddressesOf(added) {
      if a !in AddressesOf(docs) {
        FreshCounts(addresses, AddressesOf(docs), a);
        assert a in multiset(unseen);
        var j :| 0 <= j < |unseen| && unseen[j] == a;
        assert added[|docs| + j] == Document(a, map[]);
      } else {
        var d :| d in docs && d.address == a;
        assert d in added;
      }
    }
    NothingFresh(addresses, AddressesOf(added));
  }

  lemma {:induction false} NothingFresh(addresses: seq<string>, existing: set<string>)
    requires forall a :: a in addresses ==> a in existing
    ensures Fresh(addresses, existing) == []
  {
    if addresses != [] {
      NothingFresh(addresses[1..], existing);
    }
  }

  // ---------------------------------------------------------------------------
  // `__process_location`
  // ---------------------------------------------------------------------------

  /** `{key: raw.get(key, None) for key in keys}`. */
  function RawData(keys: seq<string>, raw: map<string, string>): (data: map<string, Option<string>>)
    ensures data.Keys == set k | k in keys
    ensures forall k :: k in data && k in raw ==> data[k] == Some(raw[k])
    ensures forall k :: k in data && k !in raw ==> data[k] == None
  {
    map k | k in keys :: if k in raw then Some(raw[k]) else None
  }

  function SlotOf(loc: Location, keys: seq<string>): Slot {
    Slot(loc.address, loc.altitude, loc.latitude, loc.longitude, RawData(keys, loc.raw))
  }

  /**
   * The update for one answered lookup: a found location fills the
   * provider's slot and sets the marker; no location sets the marker alone.
   */
  function ProcessLocation(location: Option<Location>, address: string, p: Provider, key: string,
                           time: Timestamp): (u: Update)
    ensures u.address == address
    ensures key in u.fields && u.fields[key] == Marker(time)
    ensures location.None? ==> u.fields.Keys == {key}
    ensures location.Some? ==> u.fields.Keys == {p.identifier, key}
    ensures location.Some? && p.identifier != key ==>
              u.fields[p.identifier] == Geocoding(SlotOf(location.value, p.rawLocationKeys))
  {
    match location
    case Some(loc) => Update(address, map[p.identifier := Geocoding(SlotOf(loc, p.rawLocationKeys)), key := Marker(time)])
    case None => Update(address, map[key := Marker(time)])
  }

  // ---------------------------------------------------------------------------
  // `geocode`
  // ---------------------------------------------------------------------------

  /** `count >= provider.max_requests() != -1`. */
  predicate Capped(p: Provider, count: nat) {
    count >= p.maxRequests && p.maxRequests != -1
  }

  /**
   * The updates a run records, visiting `addresses` from `j` on with `count`
   * results so far: a timeout records nothing, quota exhaustion stops the
   * run, and the run stops once the cap is reached.
   */
  function Recorded(p: Provider, key: string, time: Timestamp, addresses: seq<string>, j: nat, count: nat): seq<Update>
    decreases |addresses| - j
  {
    if j >= |addresses| then []
    else match p.lookup(j, addresses[j])
      case QuotaExceeded => []
      case TimedOut => if Capped(p, count) then [] else Recorded(p, key, time, addresses, j + 1, count)
      case Answer(location) =>
        [ProcessLocation(location, addresses[j], p, key, time)] +
        (if Capped(p, count + 1) then [] else Recorded(p, key, time, addresses, j + 1, count + 1))
  }

  /** Every recorded update is for a visited address and sets the marker to the run's one timestamp. */
  lemma {:induction false} RecordedMarks(p: Provider, key: string, time: Timestamp, addresses: seq<string>, j: nat, count: nat)
    ensures forall u :: u in Recorded(p, key, time, addresses, j, count) ==>
              u.address in addresses[j..] && key in u.fields && u.fields[key] == Marker(time)
    decreases |addresses| - j
  {
    if j < |addresses| {
      RecordedMarks(p, key, time, addresses, j + 1, count);
      RecordedMarks(p, key, time, addresses, j + 1, count + 1);
      assert addresses[j..] == [addresses[j]] + addresses[j + 1..];
    }
  }

  /** What a run records after visiting the address at `j` with `count` results: nothing once capped. */
  function Following(p: Provider, key: string, time: Timestamp, addresses: seq<string>, j: nat, count: nat): seq<Update> {
    if Capped(p, count) then [] else Recorded(p, key, time, addresses, j + 1, count)
  }

  /** A timeout records nothing for the address. */
  lemma RecordedTimedOut(p: Provider, key: string, time: Timestamp, addresses: seq<string>, j: nat, count: nat,
                         done: seq<Update>)
    requires j < |addresses| && p.lookup(j, addresses[j]) == TimedOut
    requires Recorded(p, key, time, addresses, 0, 0) == done + Recorded(p, key, time, addresses, j, count)
    ensures Recorded(p, key, time, addresses, 0, 0) == done + Following(p, key, time, addresses, j, count)
  {
  }

  /** An answer records one update for the address. */
  lemma RecordedAnswer(p: Provider, key: string, time: Timestamp, addresses: seq<string>, j: nat, count: nat,
                       done: seq<Update>)
    requires j < |addresses| && p.lookup(j, addresses[j]).Answer?
    requires Recorded(p, key, time, addresses, 0, 0) == done + Recorded(p, key, time, addresses, j, count)
    ensures Recorded(p, key, time, addresses, 0, 0) ==
              done + [ProcessLocation(p.lookup(j, addresses[j]).location, addresses[j], p, key, time)]
              + Following(p, key, time, addresses, j, count + 1)
  {
    var u := ProcessLocation(p.lookup(j, addresses[j]).location, addresses[j], p, key, time);
    assert done + ([u] + Following(p, key, time, addresses, j, count + 1))
        == done + [u] + Following(p, key, time, addresses, j, count + 1);
  }

  /** With a positive cap a run records at most that many results. */
  lemma {:induction false} RecordedWithinCap(p: Provider, key: string, time: Timestamp, addresses: seq<string>, j: nat, count: nat)
    requires 0 < p.maxRequests && count < p.maxRequests
    ensures count + |Recorded(p, key, time, addresses, j, count)| <= p.maxRequests
    decreases |addresses| - j
  {
    if j < |addresses| {
      match p.lookup(j, addresses[j])
      case QuotaExceeded =>
      case TimedOut => RecordedWithinCap(p, key, time, addresses, j + 1, count);
      case Answer(_) =>
        if !Capped(p, count + 1) {
          RecordedWithinCap(p, key, time, addresses, j + 1, count + 1);
        }
    }
  }

  /** Nothing is recorded for the address whose lookup exhausted the quota, nor for any after it. */
  lemma {:induction false} RecordedStopsAtQuota(p: Provider, key: string, time: Timestamp, addresses: seq<string>,
                                                j: nat, count: nat, q: nat)
    requires j <= q < |addresses| && p.lookup(q, addresses[q]) == QuotaExceeded
    ensures Recorded(p, key, time, addresses, j, count) == Recorded(p, key, time, addresses[..q], j, count)
    ensures forall u :: u in Recorded(p, key, time, addresses, j, count) ==> u.address in addresses[j..q]
    ensures |Recorded(p, key, time, addresses, j, count)| <= q - j
    decreases q - j
  {
    if j < q {
      RecordedStopsAtQuota(p, key, time, addresses, j + 1, count, q);
      RecordedStopsAtQuota(p, key, time, addresses, j + 1, count + 1, q);
      assert addresses[..q][j] == addresses[j];
      assert addresses[j..q] == [addresses[j]] + addresses[j + 1..q];
    }
  }

  /**
   * A run leaves every marked document marked, and marks the first document
   * with each address it records an answer for, so a later run with the same
   * key visits none of them.
   */
  lemma RunMarksDocuments(p: Provider, key: string, time: Timestamp, docs: seq<Document>)
    ensures forall j :: 0 <= j < |docs| && !IsUnprocessed(docs[j], key) ==>
              !IsUnprocessed(ApplyAll(docs, Recorded(p, key, time, Unprocessed(docs, key), 0, 0))[j], key)
    ensures forall u :: u in Recorded(p, key, time, Unprocessed(docs, key), 0, 0) ==>
              FirstWithAddress(docs, u.address, 0).Some? &&
              !IsUnprocessed(ApplyAll(docs, Recorded(p, key, time, Unprocessed(docs, key), 0, 0))[FirstWithAddress(docs, u.address, 0).value], key)
  {
    var addresses := Unprocessed(docs, key);
    var us := Recorded(p, key, time, addresses, 0, 0);
    RecordedMarks(p, key, time, addresses, 0, 0);
    forall j | 0 <= j < |docs| && !IsUnprocessed(docs[j], key)
      ensures !IsUnprocessed(ApplyAll(docs, us)[j], key)
    {
      ApplyAllKeepsMarked(docs, us, j, key);
    }
    forall u | u in us ensures FirstWithAddress(docs, u.address, 0).Some? {
      assert u.address in addresses[0..];
      assert addresses[0..] == addresses;
    }
    ApplyAllMarksUpdated(docs, us, key);
  }

  /** The bulk writes of a run: the recorded updates in batches of `size`, the last one possibly shorter. */
  function Chunks(s: seq<Update>, size: nat): (r: seq<Write>)
    requires size > 0
    ensures forall k :: 0 <= k < |r| ==> r[k].Updates? && 0 < |r[k].operations| <= size
    ensures forall k :: 0 <= k < |r| - 1 ==> |r[k].operations| == size
    decreases |s|
  {
    if s == [] then []
    else if |s| <= size then [Updates(s)]
    else [Updates(s[..size])] + Chunks(s[size..], size)
  }

  /** Batching a run whose first part fills whole batches batches the parts separately. */
  lemma {:induction false} ChunksAppend(a: seq<Update>, b: seq<Update>, size: nat)
    requires size > 0 && |a| % size == 0
    ensures Chunks(a + b, size) == Chunks(a, size) + Chunks(b, size)
    decreases |a|
  {
    if a == [] {
      assert a + b == b;
    } else {
      DropBatch(|a|, size);
      assert (a + b)[..size] == a[..size] && (a + b)[size..] == a[size..] + b;
      if |a| == size {
        assert a[..size] == a && a[size..] + b == b;
        if b == [] {
          assert a + b == a;
        }
      } else {
        ChunksAppend(a[size..], b, size);
      }
    }
  }

  /** Flattening the batches gives back the updates: every recorded update is written, in order. */
  function Flatten(ws: seq<Write>): seq<Update>
    requires forall k :: 0 <= k < |ws| ==> ws[k].Updates?
  {
    if ws == [] then [] else ws[0].operations + Flatten(ws[1..])
  }

  lemma {:induction false} FlattenChunks(s: seq<Update>, size: nat)
    requires size > 0
    ensures Flatten(Chunks(s, size)) == s
    decreases |s|
  {
    if |s| > size {
      FlattenChunks(s[size..], size);
      assert s[..size] + s[size..] == s;
    }
  }

  /** Taking one batch off a non-empty multiple leaves a multiple. */
  lemma DropBatch(n: nat, size: nat)
    requires size > 0 && n > 0 && n % size == 0
    ensures n >= size && (n - size) % size == 0
  {
    var q := n / size;
    assert n == q * size + n % size;
    if q <= 0 {
      MulNonPositive(q, size);
      assert false;
    }
    MulAtLeast(q, size);
    ModUnique(n - size, size, q - 1, 0);
  }

  /** Euclidean division is unique. */
  lemma ModUnique(x: int, y: int, q: int, r: int)
    requires y > 0 && 0 <= r < y && x == q * y + r
    ensures x % y == r
  {
    var q' := x / y;
    assert x == q' * y + x % y;
    assert (q - q') * y == x % y - r;
    MulBelow(q - q', y);
  }

  lemma MulBelow(a: int, y: int)
    requires y > 0 && -y < a * y < y
    ensures a == 0
  {
    if a >= 1 {
      MulAtLeast(a, y);
    } else if a <= -1 {
      MulAtLeast(-a, y);
    }
  }

  lemma MulNonPositive(a: int, y: int)
    requires a <= 0 && y > 0
    ensures a * y <= 0
  {
  }

  lemma MulAtLeast(a: int, y: int)
    requires a >= 1 && y > 0
    ensures a * y >= y
  {
  }

  /**
   * The store: the documents of the collection and the log of `bulk_write`
   * calls made on it.
   */
  class GeocodeStore {
    var documents: seq<Document>
    var writes: seq<Write>

    constructor(documents: seq<Document>)
      ensures this.documents == documents && writes == []
    {
      this.documents := documents;
      writes := [];
    }

    /** `collection.bulk_write(operations)` for updates. */
    method BulkWrite(operations: seq<Update>)
      modifies this
      ensures documents == ApplyAll(old(documents), operations)
      ensures writes == old(writes) + [Updates(operations)]
    {
      documents := ApplyAll(documents, operations);
      writes := writes + [Updates(operations)];
    }

    /**
     * `update_addresses`: one document with an empty `geocoded` object per
     * address not yet stored, the stored documents untouched, and no write
     * at all when there is nothing new.
     */
    method UpdateAddresses(addresses: seq<string>)
      modifies this
      ensures documents == old(documents) + NewDocuments(addresses, old(documents))
      ensures NewDocuments(addresses, old(documents)) == [] ==> writes == old(writes)
      ensures NewDocuments(addresses, old(documents)) != [] ==>
                writes == old(writes) + [Inserts(NewDocuments(addresses, old(documents)))]
    {
      var existing := AddressesOf(documents);
      var different := Fresh(addresses, existing);
      var operations := seq(|different|, j requires 0 <= j < |different| => Document(different[j], map[]));
      assert operations == NewDocuments(addresses, documents);
      if |operations| > 0 {
        documents := documents + operations;
        writes := writes + [Inserts(operations)];
      }
    }

    /**
     * `geocode(provider)`: looks up every unprocessed address in turn,
     * records an update per answer, writes the updates in batches of
     * `flushCount` and the remainder at the end.  The new documents and the
     * writes are those of the recorded updates; `count` is their number.
     */
    method Geocode(p: Provider, suffix: string, flushCount: nat, time: Timestamp) returns (count: nat)
      requires flushCount > 0
      modifies this
      ensures count == |Recorded(p, p.identifier + suffix, time, Unprocessed(old(documents), p.identifier + suffix), 0, 0)|
      ensures documents ==
                ApplyAll(old(documents), Recorded(p, p.identifier + suffix, time, Unprocessed(old(documents), p.identifier + suffix), 0, 0))
      ensures writes ==
                old(writes) + Chunks(Recorded(p, p.identifier + suffix, time, Unprocessed(old(documents), p.identifier + suffix), 0, 0), flushCount)
    {
      var key := p.identifier + suffix;
      var addresses := Unprocessed(documents, key);
      ghost var documents0 := documents;
      ghost var writes0 := writes;
      var operations;
      ghost var done;
      count, operations, done := VisitAll(p, key, time, addresses, flushCount);
      if |operations| != 0 {
        PendingFinish(documents0, writes0, documents, writes, done, operations, flushCount);
        BulkWrite(operations);
      } else {
        assert done[..|done|] == done;
      }
    }

    /**
     * The `for` loop of `geocode` over the unprocessed addresses: it stops at
     * quota exhaustion or at the cap, and leaves the updates not yet written
     * in `operations`.
     */
    method VisitAll(p: Provider, key: string, time: Timestamp, addresses: seq<string>, flushCount: nat)
      returns (count: nat, operations: seq<Update>, ghost done: seq<Update>)
      requires flushCount > 0
      modifies this
      ensures done == Recorded(p, key, time, addresses, 0, 0) && |done| == count
      ensures Pending(old(documents), old(writes), documents, writes, done, operations, flushCount)
    {
      ghost var documents0 := documents;
      ghost var writes0 := writes;
      done := [];
      operations := [];
      count := 0;
      var i := 0;
      PendingStart(documents, writes, flushCount);
      while i < |addresses|
        invariant i <= |addresses| && |done| == count && |operations| < flushCount
        invariant Recorded(p, key, time, addresses, 0, 0) == done + Recorded(p, key, time, addresses, i, count)
        invariant Pending(documents0, writes0, documents, writes, done, operations, flushCount)
      {
        var stop;
        stop, count, operations, done := Visit(p, key, time, addresses, i, flushCount, count, operations,
                                               documents0, writes0, done);
        if stop {
          break;
        }
        i := i + 1;
      }
    }

    /**
     * One turn of the loop of `geocode`: the lookup of the address at `i`,
     * its update when there is an answer, the batch written when it is
     * full, and whether the loop stops (quota exhausted, or the cap reached).
     */
    method Visit(p: Provider, key: string, time: Timestamp, addresses: seq<string>, i: nat, flushCount: nat,
                 count: nat, operations: seq<Update>,
                 ghost documents0: seq<Document>, ghost writes0: seq<Write>, ghost done: seq<Update>)
      returns (stop: bool, count': nat, operations': seq<Update>, ghost done': seq<Update>)
      requires i < |addresses| && |done| == count && |operations| < flushCount
      requires Recorded(p, key, time, addresses, 0, 0) == done + Recorded(p, key, time, addresses, i, count)
      requires Pending(documents0, writes0, documents, writes, done, operations, flushCount)
      modifies this
      ensures |done'| == count' && |operations'| < flushCount
      ensures Pending(documents0, writes0, documents, writes, done', operations', flushCount)
      ensures Recorded(p, key, time, addresses, 0, 0) ==
                done' + if stop then [] else Recorded(p, key, time, addresses, i + 1, count')
    {
      count', operations', done' := count, operations, done;
      var address := addresses[i];
      var outcome := p.lookup(i, address);
      match outcome {
        case QuotaExceeded =>
          assert done' + [] == done';
          return true, count', operations', done';
        case TimedOut =>
          RecordedTimedOut(p, key, time, addresses, i, count, done);
        case Answer(location) =>
          var u := ProcessLocation(location, address, p, key, time);
          RecordedAnswer(p, key, time, addresses, i, count, done);
          PendingAppend(documents0, writes0, documents, writes, done, operations, flushCount, u);
          operations' := operations + [u];
          done' := done + [u];
          count' := count + 1;
      }
      operations' := FlushWhenFull(documents0, writes0, done', operations', count', flushCount);
      stop := count' >= p.maxRequests && p.maxRequests != -1;
    }

    /**
     * Inside the loop of `geocode`: the pending updates are written as one
     * batch when `count` is a positive multiple of `flushCount`; what is left
     * pending is less than a batch.
     */
    method FlushWhenFull(ghost documents0: seq<Document>, ghost writes0: seq<Write>, ghost done: seq<Update>,
                         operations: seq<Update>, count: nat, flushCount: nat) returns (pending: seq<Update>)
      requires |done| == count && Pending(documents0, writes0, documents, writes, done, operations, flushCount)
      modifies this
      ensures Pending(documents0, writes0, documents, writes, done, pending, flushCount) && |pending| < flushCount
      ensures pending == [] || pending == operations
    {
      pending := operations;
      PendingRemainder(documents0, writes0, documents, writes, done, operations, flushCount);
      if count % flushCount == 0 && count != 0 && |operations| != 0 {
        PendingFlush(documents0, writes0, documents, writes, done, operations, flushCount);
        BulkWrite(operations);
        pending := [];
      }
    }
  }

  /**
   * The state of a run between two lookups: the updates `done` so far are
   * all in `documents` and `writes` except the `operations` still pending,
   * which are fewer than a batch and follow whole batches.
   */
  ghost predicate Pending(documents0: seq<Document>, writes0: seq<Write>, documents: seq<Document>, writes: seq<Write>,
                          done: seq<Update>, operations: seq<Update>, size: nat)
  {
    size > 0 && |operations| <= size && |operations| <= |done| && operations == done[|done| - |operations|..]
    && (|done| - |operations|) % size == 0
    && documents == ApplyAll(documents0, done[..|done| - |operations|])
    && writes == writes0 + Chunks(done[..|done| - |operations|], size)
  }

  /** At the start of a run nothing is done and nothing pending. */
  lemma PendingStart(documents: seq<Document>, writes: seq<Write>, size: nat)
    requires size > 0
    ensures Pending(documents, writes, documents, writes, [], [], size)
  {
    assert writes + [] == writes;
  }

  /** The pending updates are the remainder of the count, or a whole batch when it divides the count. */
  lemma PendingRemainder(documents0: seq<Document>, writes0: seq<Write>, documents: seq<Document>, writes: seq<Write>,
                         done: seq<Update>, operations: seq<Update>, size: nat)
    requires Pending(documents0, writes0, documents, writes, done, operations, size)
    ensures |operations| < size ==> |done| % size == |operations|
    ensures |operations| == size ==> |done| % size == 0
  {
    var n := |done| - |operations|;
    var q := n / size;
    assert n == q * size + n % size;
    if |operations| < size {
      ModUnique(|done|, size, q, |operations|);
    } else {
      ModUnique(|done|, size, q + 1, 0);
    }
  }

  /** Recording one more update keeps it pending. */
  lemma PendingAppend(documents0: seq<Document>, writes0: seq<Write>, documents: seq<Document>, writes: seq<Write>,
                      done: seq<Update>, operations: seq<Update>, size: nat, u: Update)
    requires Pending(documents0, writes0, documents, writes, done, operations, size) && |operations| < size
    ensures Pending(documents0, writes0, documents, writes, done + [u], operations + [u], size)
  {
    var n := |done| - |operations|;
    assert (done + [u])[..n] == done[..n];
    assert (done + [u])[n..] == operations + [u];
  }

  /** Writing the pending updates when they complete a batch leaves nothing pending. */
  lemma PendingFlush(documents0: seq<Document>, writes0: seq<Write>, documents: seq<Document>, writes: seq<Write>,
                     done: seq<Update>, operations: seq<Update>, size: nat)
    requires Pending(documents0, writes0, documents, writes, done, operations, size)
    requires operations != [] && |done| % size == 0
    ensures Pending(documents0, writes0, ApplyAll(documents, operations), writes + [Updates(operations)], done, [], size)
  {
    PendingFinish(documents0, writes0, documents, writes, done, operations, size);
    assert done[..|done|] == done && done[|done|..] == [];
  }

  /** Writing the pending updates at the end of a run writes every update, in batches. */
  lemma PendingFinish(documents0: seq<Document>, writes0: seq<Write>, documents: seq<Document>, writes: seq<Write>,
                      done: seq<Update>, operations: seq<Update>, size: nat)
    requires Pending(documents0, writes0, documents, writes, done, operations, size) && operations != []
    ensures ApplyAll(documents, operations) == ApplyAll(documents0, done)
    ensures writes + [Updates(operations)] == writes0 + Chunks(done, size)
  {
    var n := |done| - |operations|;
    FlushStep(done, |done|, operations, size);
    ApplyAllAppend(documents0, done[..n], operations);
    assert done[..|done|] == done;
  }

  /** Writing the pending updates as one batch completes the batches of everything done so far. */
  lemma FlushStep(done: seq<Update>, count: nat, operations: seq<Update>, size: nat)
    requires size > 0 && count == |done|
    requires 0 < |operations| <= size && |operations| <= count && operations == done[count - |operations|..]
    requires (count - |operations|) % size == 0
    ensures done[..count - |operations|] + operations == done[..count]
    ensures Chunks(done[..count], size) == Chunks(done[..count - |operations|], size) + [Updates(operations)]
  {
    var prefix := done[..count - |operations|];
    assert prefix + operations == done[..count];
    ChunksAppend(prefix, operations, size);
  }
}
