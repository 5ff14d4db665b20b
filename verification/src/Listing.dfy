/**
 Listing and counting (internal/repository/repository.go:155-309, 1142-1233): which index is
 scanned, what survives the filter, and what a page of the scan is.
 */
module Listing {
  import opened Text
  import opened Models
  import opened Keys
  import opened Store
  import opened Consistency

  datatype Order = ByCreated | ByPriority | AsScanned

  datatype Options = Options(
    statuses: seq<string>,
    queueIDs: seq<string>,
    tags: seq<string>,
    search: string,
    createdAfter: Option<Nanos>,
    createdBefore: Option<Nanos>,
    orderBy: Order,
    desc: bool)

  // ---- The filter ----

  function SearchText(d: Download): string {
    d.url + (if d.filename.Some? then "|" + d.filename.value else "")
  }

  predicate HasTag(d: Download, tags: seq<string>) {
    exists i, j | 0 <= i < |tags| && 0 <= j < |d.tags| :: EqualFold(d.tags[j], tags[i])
  }

  predicate Matches(d: Download, o: Options) {
    && (o.queueIDs == [] || d.queueID in o.queueIDs)
    && (o.statuses == [] || d.status in o.statuses)
    && (o.tags == [] || HasTag(d, o.tags))
    && (o.search == "" || Contains(ToLower(SearchText(d)), ToLower(o.search)))
    && (o.createdAfter.Some? ==> d.createdAt.At? && o.createdAfter.value <= d.createdAt.ns)
    && (o.createdBefore.Some? ==> d.createdAt.Zero? || d.createdAt.ns <= o.createdBefore.value)
  }

  const EVERYTHING := Options([], [], [], "", None, None, ByCreated, false)

  /** A filter asks for all that its parts ask for. */
  lemma FilterIsConjunction(d: Download, o: Options)
    ensures Matches(d, EVERYTHING)
    ensures Matches(d, o) <==>
            && Matches(d, EVERYTHING.(queueIDs := o.queueIDs)) && Matches(d, EVERYTHING.(statuses := o.statuses))
            && Matches(d, EVERYTHING.(tags := o.tags)) && Matches(d, EVERYTHING.(search := o.search))
            && Matches(d, EVERYTHING.(createdAfter := o.createdAfter)) && Matches(d, EVERYTHING.(createdBefore := o.createdBefore))
  {
  }

  /** One of the queues, one of the statuses, a tag in whatever case. */
  lemma ChoicesMean(d: Download, choices: seq<string>)
    requires choices != []
    ensures Matches(d, EVERYTHING.(queueIDs := choices)) <==> exists i :: 0 <= i < |choices| && d.queueID == choices[i]
    ensures Matches(d, EVERYTHING.(statuses := choices)) <==> exists i :: 0 <= i < |choices| && d.status == choices[i]
    ensures Matches(d, EVERYTHING.(tags := choices)) <==>
            exists i, j :: 0 <= i < |choices| && 0 <= j < |d.tags| && |d.tags[j]| == |choices[i]| &&
              forall k | 0 <= k < |choices[i]| :: SameLetter(d.tags[j][k], choices[i][k])
  {
    forall i, j | 0 <= i < |choices| && 0 <= j < |d.tags|
      ensures EqualFold(d.tags[j], choices[i]) <==>
              |d.tags[j]| == |choices[i]| && forall k | 0 <= k < |choices[i]| :: SameLetter(d.tags[j][k], choices[i][k])
    {
      EqualFoldIff(d.tags[j], choices[i]);
    }
  }

  /** The bounds are inclusive; a download without a time of creation is before every one. */
  lemma BoundsMean(d: Download, t: Nanos)
    ensures Matches(d, EVERYTHING.(createdAfter := Some(t))) <==> d.createdAt.At? && t <= d.createdAt.ns
    ensures Matches(d, EVERYTHING.(createdBefore := Some(t))) <==> d.createdAt.Zero? || d.createdAt.ns <= t
  {
  }

  /** Words without a bar are looked for in the address and in the file name, in whatever case. */
  lemma SearchMeans(d: Download, words: string)
    requires words != "" && '|' !in words
    ensures Matches(d, EVERYTHING.(search := words)) <==>
            FoundIn(d.url, words) || (d.filename.Some? && FoundIn(d.filename.value, words))
  {
    ContainsIff(SearchText(d), words);
    if d.filename.Some? {
      FoundAcrossBar(d.url, d.filename.value, words);
      assert SearchText(d) == d.url + "|" + d.filename.value;
    } else {
      assert SearchText(d) == d.url;
    }
  }

  // ---- The scan ----

  /** The index prefix that a listing scans: a single queue first, else a single status. There is no
      bar after the value, so entries of longer values are visited too. */
  function ScanPrefix(o: Options): string {
    if |o.queueIDs| == 1 then P_QUEUE + "|" + o.queueIDs[0]
    else if |o.statuses| == 1 then P_STATUS + "|" + o.statuses[0]
    else P_CREATED
  }

  /** A single-value filter with an empty value has no index entries to scan. */
  predicate Answerable(o: Options) {
    if |o.queueIDs| == 1 then o.queueIDs[0] != ""
    else if |o.statuses| == 1 then o.statuses[0] != ""
    else true
  }

  function Reverse<T>(s: seq<T>): (r: seq<T>)
    ensures |r| == |s| && forall i | 0 <= i < |s| :: r[i] == s[|s| - 1 - i]
    ensures forall x | x in r :: x in s
  {
    seq(|s|, i requires 0 <= i < |s| => s[|s| - 1 - i])
  }

  /** A byte above every byte of UTF-8 text. */
  const TOP: char := 255 as char

  function KeysBelow(kv: KV, prefix: string): set<string> {
    set k | k in kv && prefix <= k && (k == prefix + [TOP] || Less(k, prefix + [TOP]))
  }

  /** The keys that an iterator over `prefix` visits. A reverse iterator is first moved to the last
      key not above the prefix extended by the top byte. */
  function ScanKeys(kv: KV, prefix: string, desc: bool): (r: seq<string>)
    ensures forall k | k in r :: k in kv && prefix <= k
  {
    if desc
    then Reverse(Sorted(KeysBelow(kv, prefix)))
    else Sorted(set k | k in kv && prefix <= k)
  }

  /** The record that a visited index key leads to, if there is one and it passes the filter. */
  predicate Survives(kv: KV, o: Options, k: string) {
    HasRecord(kv, IdOf(k)) && Matches(RecordOf(kv, IdOf(k)), o)
  }

  function Filtered(kv: KV, o: Options, keys: seq<string>): seq<Download> {
    if keys == [] then []
    else
      var n := |keys| - 1;
      Filtered(kv, o, keys[..n]) + (if Survives(kv, o, keys[n]) then [RecordOf(kv, IdOf(keys[n]))] else [])
  }

  /** The whole filtered scan, before paging and sorting. */
  function FullScan(kv: KV, o: Options): seq<Download> {
    Filtered(kv, o, ScanKeys(kv, ScanPrefix(o), o.desc))
  }

  // ---- What a listing is meant to be ----

  /** Older first, then by id. */
  predicate Before(a: Download, b: Download) {
    a.createdAt.At? && b.createdAt.At? &&
    (a.createdAt.ns < b.createdAt.ns || (a.createdAt.ns == b.createdAt.ns && Less(a.id, b.id)))
  }

  ghost predicate Chronological(s: seq<Download>) {
    forall i, j | 0 <= i < j < |s| :: Before(s[i], s[j])
  }

  ghost function Matching(kv: KV, o: Options): set<Download> {
    set k | k in kv && kv[k].Record? && Matches(kv[k].d, o) :: kv[k].d
  }

  /** Each matching download once, oldest first. */
  ghost predicate IsListing(kv: KV, o: Options, s: seq<Download>) {
    Chronological(s) && forall d :: d in s <==> d in Matching(kv, o)
  }

  lemma {:induction false} ChronologicalUnique(s: seq<Download>, t: seq<Download>)
    requires Chronological(s) && Chronological(t)
    requires forall d :: d in s <==> d in t
    ensures s == t
  {
    assert forall i | 0 <= i < |s| :: s[i] in t;
    assert forall i | 0 <= i < |t| :: t[i] in s;
    if s != [] && t != [] {
      BeforeTotal(s[0], t[0]);
      BeforeTotal(s[0], s[0]);
      BeforeTotal(t[0], t[0]);
      assert s[0] == t[0];
      forall d ensures d in s[1..] <==> d in t[1..] {
        if d in s[1..] { assert d in t; }
        if d in t[1..] { assert d in s; }
      }
      ChronologicalUnique(s[1..], t[1..]);
    }
  }

  lemma BeforeTotal(a: Download, b: Download)
    ensures !(Before(a, b) && Before(b, a)) && !Before(a, a)
  {
    LessTotal(a.id, b.id);
    LessTotal(a.id, a.id);
  }

  // ---- Scans of an index that is exact for the filter ----

  /** The index entry that a scan with this prefix has for a matching record. */
  function EntryFor(prefix: string, d: Download): string
    requires d.createdAt.At?
  {
    prefix + "|" + Tail(d.createdAt.ns, d.id)
  }

  /** The keys under `prefix` whose record passes the filter are the entries of the matching records. */
  ghost predicate Covers(kv: KV, o: Options, prefix: string)
    requires WellFormed(kv)
  {
    && (forall k | k in kv && prefix <= k && Survives(kv, o, k) :: k == EntryFor(prefix, RecordOf(kv, IdOf(k))))
    && (forall r | r in kv && kv[r].Record? && Matches(kv[r].d, o) :: EntryFor(prefix, kv[r].d) in kv)
  }

  /** A download has at most one key in each family but the tags. */
  lemma OneKeyPerFamily(d: Download, k: string)
    requires d.createdAt.At? && k in IndexKeys(d)
    ensures P_CREATED <= k ==> k == KCreated(d.createdAt.ns, d.id)
    ensures P_STATUS <= k ==> d.status != "" && k == KStatus(d.status, d.createdAt.ns, d.id)
    ensures P_QUEUE <= k ==> d.queueID != "" && k == KQueue(d.queueID, d.createdAt.ns, d.id)
  {
    var t := d.createdAt.ns;
    TagKeysShape(d.tags, t, d.id);
    assert P_CREATED <= k ==> k[1] == 'c';
    assert P_STATUS <= k ==> k[1] == 's';
    assert P_QUEUE <= k ==> k[1] == 'q';
    assert KCreated(t, d.id)[1] == 'c' && KStatus(d.status, t, d.id)[1] == 's' && KQueue(d.queueID, t, d.id)[1] == 'q';
    assert k in TagKeys(d.tags, t, d.id) ==> k[1] == 't';
  }

  /** Without stale entries an index key is one of those of the record it leads to. */
  lemma KeyOfRecord(kv: KV, k: string)
    requires Live(kv) && k in kv && IsIndexKey(k)
    ensures HasRecord(kv, IdOf(k)) && RecordOf(kv, IdOf(k)).createdAt.At? && k in IndexKeys(RecordOf(kv, IdOf(k)))
  {
    assert k in Expected(kv, IdOf(k));
  }

  lemma EntryIsStored(kv: KV, r: string, k: string)
    requires Consistent(kv) && r in kv && kv[r].Record? && k in IndexKeys(kv[r].d)
    ensures k in kv
  {
    assert k in Derived(kv[r].d);
  }

  /** On a consistent store the created-at index is exact for every filter. */
  lemma CreatedCovers(kv: KV, o: Options)
    requires Consistent(kv)
    ensures Covers(kv, o, P_CREATED)
  {
    forall k | k in kv && P_CREATED <= k && Survives(kv, o, k)
      ensures k == EntryFor(P_CREATED, RecordOf(kv, IdOf(k)))
    {
      KeyOfRecord(kv, k);
      OneKeyPerFamily(RecordOf(kv, IdOf(k)), k);
    }
    forall r | r in kv && kv[r].Record? ensures EntryFor(P_CREATED, kv[r].d) in kv {
      EntryIsStored(kv, r, KCreated(kv[r].d.createdAt.ns, kv[r].d.id));
    }
  }

  lemma QueueCovers(kv: KV, o: Options)
    requires Consistent(kv) && |o.queueIDs| == 1 && o.queueIDs[0] != ""
    ensures Covers(kv, o, P_QUEUE + "|" + o.queueIDs[0])
  {
    var prefix := P_QUEUE + "|" + o.queueIDs[0];
    forall k | k in kv && prefix <= k && Survives(kv, o, k)
      ensures k == EntryFor(prefix, RecordOf(kv, IdOf(k)))
    {
      QueueEntryMatches(kv, o, k);
    }
    forall r | r in kv && kv[r].Record? && Matches(kv[r].d, o) ensures EntryFor(prefix, kv[r].d) in kv {
      EntryIsStored(kv, r, KQueue(kv[r].d.queueID, kv[r].d.createdAt.ns, kv[r].d.id));
    }
  }

  lemma QueueEntryMatches(kv: KV, o: Options, k: string)
    requires Live(kv) && |o.queueIDs| == 1 && k in kv && P_QUEUE + "|" + o.queueIDs[0] <= k && Survives(kv, o, k)
    ensures RecordOf(kv, IdOf(k)).createdAt.At?
    ensures k == EntryFor(P_QUEUE + "|" + o.queueIDs[0], RecordOf(kv, IdOf(k)))
  {
    assert P_QUEUE <= P_QUEUE + "|" + o.queueIDs[0];
    KeyOfRecord(kv, k);
    OneKeyPerFamily(RecordOf(kv, IdOf(k)), k);
  }

  lemma StatusCovers(kv: KV, o: Options)
    requires Consistent(kv) && |o.statuses| == 1 && o.statuses[0] != ""
    ensures Covers(kv, o, P_STATUS + "|" + o.statuses[0])
  {
    var prefix := P_STATUS + "|" + o.statuses[0];
    forall k | k in kv && prefix <= k && Survives(kv, o, k)
      ensures k == EntryFor(prefix, RecordOf(kv, IdOf(k)))
    {
      StatusEntryMatches(kv, o, k);
    }
    forall r | r in kv && kv[r].Record? && Matches(kv[r].d, o) ensures EntryFor(prefix, kv[r].d) in kv {
      EntryIsStored(kv, r, KStatus(kv[r].d.status, kv[r].d.createdAt.ns, kv[r].d.id));
    }
  }

  lemma StatusEntryMatches(kv: KV, o: Options, k: string)
    requires Live(kv) && |o.statuses| == 1 && k in kv && P_STATUS + "|" + o.statuses[0] <= k && Survives(kv, o, k)
    ensures RecordOf(kv, IdOf(k)).createdAt.At?
    ensures k == EntryFor(P_STATUS + "|" + o.statuses[0], RecordOf(kv, IdOf(k)))
  {
    assert P_STATUS <= P_STATUS + "|" + o.statuses[0];
    KeyOfRecord(kv, k);
    OneKeyPerFamily(RecordOf(kv, IdOf(k)), k);
  }

  // ---- From keys to records ----

  lemma {:induction false} FilteredAppend(kv: KV, o: Options, a: seq<string>, b: seq<string>)
    ensures Filtered(kv, o, a + b) == Filtered(kv, o, a) + Filtered(kv, o, b)
  {
    if b == [] {
      assert a + b == a;
    } else {
      var n := |b| - 1;
      assert (a + b)[..|a| + n] == a + b[..n];
      FilteredAppend(kv, o, a, b[..n]);
    }
  }

  lemma {:induction false} FilteredReverse(kv: KV, o: Options, keys: seq<string>)
    ensures Filtered(kv, o, Reverse(keys)) == Reverse(Filtered(kv, o, keys))
  {
    if keys != [] {
      var n := |keys| - 1;
      FilteredReverse(kv, o, keys[..n]);
      assert Reverse(keys) == [keys[n]] + Reverse(keys[..n]);
      FilteredAppend(kv, o, [keys[n]], Reverse(keys[..n]));
      assert [keys[n]][..0] == [];
      assert Filtered(kv, o, [keys[n]]) == if Survives(kv, o, keys[n]) then [RecordOf(kv, IdOf(keys[n]))] else [];
    }
  }

  lemma {:induction false} FilteredMembers(kv: KV, o: Options, keys: seq<string>)
    ensures forall d | d in Filtered(kv, o, keys) ::
              exists k | k in keys :: Survives(kv, o, k) && RecordOf(kv, IdOf(k)) == d
    ensures forall k | k in keys && Survives(kv, o, k) :: RecordOf(kv, IdOf(k)) in Filtered(kv, o, keys)
  {
    if keys != [] {
      var n := |keys| - 1;
      FilteredMembers(kv, o, keys[..n]);
      assert keys == keys[..n] + [keys[n]];
    }
  }

  /** Index order is chronological order. */
  lemma {:induction false} FilteredChronological(kv: KV, o: Options, prefix: string, keys: seq<string>)
    requires WellFormed(kv) && Covers(kv, o, prefix) && Ascending(keys)
    requires forall k | k in keys :: k in kv && prefix <= k
    ensures Chronological(Filtered(kv, o, keys))
  {
    if keys != [] {
      var n := |keys| - 1;
      assert forall k | k in keys[..n] :: k in keys;
      FilteredChronological(kv, o, prefix, keys[..n]);
      FilteredMembers(kv, o, keys[..n]);
      if Survives(kv, o, keys[n]) {
        var last := RecordOf(kv, IdOf(keys[n]));
        forall d | d in Filtered(kv, o, keys[..n]) ensures Before(d, last) {
          var k :| k in keys[..n] && Survives(kv, o, k) && RecordOf(kv, IdOf(k)) == d;
          assert keys[n] in keys && k in keys;
          IdOfRecord(kv, IdOf(k));
          IdOfRecord(kv, IdOf(keys[n]));
          TailOrder(prefix + "|", d.createdAt.ns, d.id, last.createdAt.ns, last.id);
        }
      }
    }
  }

  lemma FilteredIsListing(kv: KV, o: Options, prefix: string, keys: seq<string>)
    requires WellFormed(kv) && Covers(kv, o, prefix) && Ascending(keys)
    requires forall k | k in keys :: k in kv && prefix <= k
    requires forall r | r in kv && kv[r].Record? && Matches(kv[r].d, o) :: EntryFor(prefix, kv[r].d) in keys
    ensures IsListing(kv, o, Filtered(kv, o, keys))
  {
    FilteredChronological(kv, o, prefix, keys);
    FilteredMembers(kv, o, keys);
    forall d | d in Matching(kv, o) ensures d in Filtered(kv, o, keys) {
      var r :| r in kv && kv[r].Record? && Matches(kv[r].d, o) && kv[r].d == d;
      IdIsRecovered(prefix + "|", d.createdAt.ns, d.id);
      assert Survives(kv, o, EntryFor(prefix, d));
    }
  }

  /** Both directions of a scan under a covering prefix list the matching downloads. */
  lemma ScanIsListing(kv: KV, o: Options, prefix: string)
    requires WellFormed(kv) && Covers(kv, o, prefix)
    ensures IsListing(kv, o, Filtered(kv, o, ScanKeys(kv, prefix, false)))
    ensures Filtered(kv, o, ScanKeys(kv, prefix, true)) == Reverse(Filtered(kv, o, ScanKeys(kv, prefix, false)))
  {
    var up := Sorted(set k | k in kv && prefix <= k);
    var below := Sorted(KeysBelow(kv, prefix));
    forall r | r in kv && kv[r].Record? && Matches(kv[r].d, o)
      ensures EntryFor(prefix, kv[r].d) in up && EntryFor(prefix, kv[r].d) in below
    {
      var tail := "|" + Tail(kv[r].d.createdAt.ns, kv[r].d.id);
      assert EntryFor(prefix, kv[r].d) == prefix + tail;
      LessAfterPrefix(prefix, tail, [TOP]);
      assert Less(tail, [TOP]);
      assert prefix <= prefix + tail;
    }
    FilteredIsListing(kv, o, prefix, up);
    FilteredIsListing(kv, o, prefix, below);
    ChronologicalUnique(Filtered(kv, o, up), Filtered(kv, o, below));
    FilteredReverse(kv, o, below);
  }

  // ---- Main results ----

  /** The listing that `o` asks for, read off the created-at index. */
  function Listed(kv: KV, o: Options): seq<Download> {
    Filtered(kv, o, ScanKeys(kv, P_CREATED, false))
  }

  /** The choice of the index is invisible: every scan gives the matching downloads, each once, ordered
      by creation time and id, and exactly reversed when descending. */
  lemma AccessPathIndependence(kv: KV, o: Options)
    requires Consistent(kv) && Answerable(o)
    ensures IsListing(kv, o, Listed(kv, o))
    ensures FullScan(kv, o) == if o.desc then Reverse(Listed(kv, o)) else Listed(kv, o)
  {
    var prefix := ScanPrefix(o);
    CreatedCovers(kv, o);
    ScanIsListing(kv, o, P_CREATED);
    if |o.queueIDs| == 1 {
      QueueCovers(kv, o);
    } else if |o.statuses| == 1 {
      StatusCovers(kv, o);
    }
    ScanIsListing(kv, o, prefix);
    ChronologicalUnique(Listed(kv, o), Filtered(kv, o, ScanKeys(kv, prefix, false)));
  }

  lemma NoSurvivor(kv: KV, o: Options, k: string)
    requires Live(kv) && !Answerable(o) && k in kv && ScanPrefix(o) <= k
    ensures !Survives(kv, o, k)
  {
    if |o.queueIDs| == 1 {
      assert P_QUEUE <= P_QUEUE + "|" + o.queueIDs[0];
    } else {
      assert P_STATUS <= P_STATUS + "|" + o.statuses[0];
    }
    EntryHasValue(kv, k);
  }

  lemma EntryHasValue(kv: KV, k: string)
    requires Live(kv) && k in kv && (P_QUEUE <= k || P_STATUS <= k)
    ensures HasRecord(kv, IdOf(k))
    ensures P_QUEUE <= k ==> RecordOf(kv, IdOf(k)).queueID != ""
    ensures P_STATUS <= k ==> RecordOf(kv, IdOf(k)).status != ""
  {
    KeyOfRecord(kv, k);
    OneKeyPerFamily(RecordOf(kv, IdOf(k)), k);
  }

  lemma {:induction false} NoneFiltered(kv: KV, o: Options, keys: seq<string>)
    requires forall k | k in keys :: !Survives(kv, o, k)
    ensures Filtered(kv, o, keys) == []
  {
    if keys != [] {
      NoneFiltered(kv, o, keys[..|keys| - 1]);
    }
  }

  /** A single-value filter with an empty value finds nothing in its index, complete or not. */
  lemma UnanswerableFindsNothing(kv: KV, o: Options)
    requires Live(kv) && !Answerable(o)
    ensures FullScan(kv, o) == []
  {
    var keys := ScanKeys(kv, ScanPrefix(o), o.desc);
    forall k | k in keys ensures !Survives(kv, o, k) {
      NoSurvivor(kv, o, k);
    }
    NoneFiltered(kv, o, keys);
  }

  /** A listing finds exactly the matching downloads iff its filter is answerable or matches nothing. */
  lemma ScanIsExactIff(kv: KV, o: Options)
    requires Consistent(kv)
    ensures (forall d :: d in FullScan(kv, o) <==> d in Matching(kv, o)) <==> Answerable(o) || Matching(kv, o) == {}
  {
    if Answerable(o) {
      AccessPathIndependence(kv, o);
      ReverseMembers(Listed(kv, o));
    } else {
      UnanswerableFindsNothing(kv, o);
    }
  }

  lemma ReverseMembers<T>(s: seq<T>)
    ensures forall x :: x in Reverse(s) <==> x in s
  {
    forall i | 0 <= i < |s| ensures s[i] in Reverse(s) {
      assert Reverse(s)[|s| - 1 - i] == s[i];
    }
  }

  // ---- Counting ----

  /** `CountDownloads` scans upwards whatever order is asked for. */
  function Counted(kv: KV, o: Options): nat { |Filtered(kv, o, ScanKeys(kv, ScanPrefix(o), false))| }

  lemma {:induction false} DistinctLength<T>(s: seq<T>, elements: set<T>)
    requires forall i, j | 0 <= i < j < |s| :: s[i] != s[j]
    requires forall x :: x in s <==> x in elements
    ensures |s| == |elements|
  {
    if s == [] {
      assert elements == {};
    } else {
      var n := |s| - 1;
      forall x ensures x in s[..n] <==> x in elements - {s[n]} {
        assert s == s[..n] + [s[n]];
      }
      DistinctLength(s[..n], elements - {s[n]});
      assert s[n] in s;
    }
  }

  lemma ListingLength(kv: KV, o: Options, s: seq<Download>)
    requires IsListing(kv, o, s)
    ensures |s| == |Matching(kv, o)|
  {
    forall i, j | 0 <= i < j < |s| ensures s[i] != s[j] { BeforeTotal(s[i], s[j]); }
    DistinctLength(s, Matching(kv, o));
  }

  /** No entry that survives the filter lies above the key at which a descending scan starts. */
  ghost predicate NoneAboveTop(kv: KV, o: Options) {
    forall k | k in kv && ScanPrefix(o) <= k && Less(ScanPrefix(o) + [TOP], k) :: !Survives(kv, o, k)
  }

  function KeysAbove(kv: KV, prefix: string): set<string> {
    set k | k in kv && prefix <= k && Less(prefix + [TOP], k)
  }

  /** An ascending scan is what a descending one would visit, and then the keys above its start. */
  lemma ScanSplits(kv: KV, prefix: string)
    ensures ScanKeys(kv, prefix, false) == Sorted(KeysBelow(kv, prefix)) + Sorted(KeysAbove(kv, prefix))
  {
    var top := prefix + [TOP];
    var below, above := Sorted(KeysBelow(kv, prefix)), Sorted(KeysAbove(kv, prefix));
    forall x, y | x in below && y in above ensures Less(x, y) {
      if x != top { LessTransitive(x, top, y); }
    }
    forall i, j | 0 <= i < j < |below + above| ensures Less((below + above)[i], (below + above)[j]) {
      if i < |below| <= j { assert below[i] in below && above[j - |below|] in above; }
    }
    forall k ensures k in below + above <==> k in (set k | k in kv && prefix <= k) {
      LessTotal(k, top);
    }
    AscendingUnique(ScanKeys(kv, prefix, false), below + above);
  }

  /** On any store whatever, a descending listing is as long as the count iff nothing that survives the
      filter lies above its start. */
  lemma DescendingCountIff(kv: KV, o: Options)
    requires o.desc
    ensures Counted(kv, o) == |FullScan(kv, o)| <==> NoneAboveTop(kv, o)
  {
    var prefix := ScanPrefix(o);
    var below, above := Sorted(KeysBelow(kv, prefix)), Sorted(KeysAbove(kv, prefix));
    ScanSplits(kv, prefix);
    FilteredAppend(kv, o, below, above);
    FilteredReverse(kv, o, below);
    FilteredMembers(kv, o, above);
    if NoneAboveTop(kv, o) {
      NoneFiltered(kv, o, above);
    }
  }

  /** Without stale entries, an entry that survives is the one of its record under the scan's prefix. */
  lemma SurvivorIsEntry(kv: KV, o: Options, k: string)
    requires Live(kv) && k in kv && ScanPrefix(o) <= k && Survives(kv, o, k)
    ensures RecordOf(kv, IdOf(k)).createdAt.At? && k == EntryFor(ScanPrefix(o), RecordOf(kv, IdOf(k)))
  {
    if !Answerable(o) {
      NoSurvivor(kv, o, k);
    } else if |o.queueIDs| == 1 {
      QueueEntryMatches(kv, o, k);
    } else if |o.statuses| == 1 {
      StatusEntryMatches(kv, o, k);
    } else {
      KeyOfRecord(kv, k);
      OneKeyPerFamily(RecordOf(kv, IdOf(k)), k);
    }
  }

  lemma EntryBelowTop(prefix: string, d: Download)
    requires d.createdAt.At?
    ensures Less(EntryFor(prefix, d), prefix + [TOP])
  {
    var tail := "|" + Tail(d.createdAt.ns, d.id);
    assert EntryFor(prefix, d) == prefix + tail;
    LessAfterPrefix(prefix, tail, [TOP]);
  }

  lemma LiveHasNoneAbove(kv: KV, o: Options)
    requires Live(kv)
    ensures NoneAboveTop(kv, o)
  {
    forall k | k in kv && ScanPrefix(o) <= k && Less(ScanPrefix(o) + [TOP], k) ensures !Survives(kv, o, k) {
      if Survives(kv, o, k) {
        SurvivorIsEntry(kv, o, k);
        EntryBelowTop(ScanPrefix(o), RecordOf(kv, IdOf(k)));
        LessTotal(k, ScanPrefix(o) + [TOP]);
      }
    }
  }

  /** Count is the length of the unlimited list: always when ascending, and when descending iff nothing
      that survives lies above the start of the scan, as is so whenever no entry is stale. On a consistent
      store it is the number of matching downloads. */
  lemma CountIsListLength(kv: KV, o: Options)
    ensures (!o.desc || NoneAboveTop(kv, o)) <==> Counted(kv, o) == |FullScan(kv, o)|
    ensures Live(kv) ==> Counted(kv, o) == |FullScan(kv, o)|
    ensures Consistent(kv) && Answerable(o) ==> Counted(kv, o) == |Matching(kv, o)|
  {
    if o.desc {
      DescendingCountIff(kv, o);
    }
    if Live(kv) {
      LiveHasNoneAbove(kv, o);
    }
    if Consistent(kv) && Answerable(o) {
      AccessPathIndependence(kv, o);
      ListingLength(kv, o, Listed(kv, o));
    }
  }
}
