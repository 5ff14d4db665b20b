/**
 Key encoders of the store (internal/repository/repository.go:37-78). `bytes.Join` puts a bar
 between its parts and each prefix already ends in one, so the encoded keys hold two in a row.
 */
module Keys {
  import opened Text
  import opened Models

  const P_DOWNLOAD := "d|"
  const P_CREATED := "dca|"
  const P_STATUS := "dst|"
  const P_QUEUE := "dq|"
  const P_TAG := "dt|"
  const P_QUEUE_ROW := "q|"
  const P_STATS := "qs|"
  const P_SEGMENT := "s|"

  const FAMILIES := [P_DOWNLOAD, P_CREATED, P_STATUS, P_QUEUE, P_TAG, P_QUEUE_ROW, P_STATS, P_SEGMENT]

  const TIME_WIDTH := 20
  const INDEX_WIDTH := 9

  function TimeKey(t: Nanos): string { Padded(t, TIME_WIDTH) }

  /** What every index key ends in. */
  function Tail(t: Nanos, id: string): string { TimeKey(t) + "|" + id }

  function KDownload(id: string): string { P_DOWNLOAD + id }

  function KCreated(t: Nanos, id: string): string { P_CREATED + "|" + Tail(t, id) }

  function KStatus(status: string, t: Nanos, id: string): string { P_STATUS + "|" + status + "|" + Tail(t, id) }

  function KQueue(queue: string, t: Nanos, id: string): string { P_QUEUE + "|" + queue + "|" + Tail(t, id) }

  function KTag(tag: string, t: Nanos, id: string): string { P_TAG + "|" + tag + "|" + Tail(t, id) }

  function KStats(id: string): string { P_STATS + id }

  function KSegment(download: string, index: nat): string {
    P_SEGMENT + "|" + download + "|" + Padded(index, INDEX_WIDTH)
  }

  /** Ids from which an index key can be read back. */
  predicate ValidId(id: string) { id != "" && '|' !in id }

  predicate IsPrimaryKey(k: string) { P_DOWNLOAD <= k }

  predicate IsIndexKey(k: string) { P_CREATED <= k || P_STATUS <= k || P_QUEUE <= k || P_TAG <= k }

  /** The id a reader takes from an index key. */
  function IdOf(k: string): string { LastField(k) }

  /** No string belongs to two of the eight key families. */
  lemma FamiliesDisjoint(i: nat, j: nat, k: string)
    requires i < j < |FAMILIES|
    requires FAMILIES[i] <= k
    ensures !(FAMILIES[j] <= k)
  {
    var p, q := FAMILIES[i], FAMILIES[j];
    assert k[0] == p[0] && k[1] == p[1] && (|p| > 2 ==> k[2] == p[2]);
    assert q[0] != k[0] || q[1] != k[1] || (|q| > 2 && q[2] != k[2]);
  }

  /** Primary, index, segment and statistics rows never share a key. */
  lemma RowsApart(k: string)
    ensures IsIndexKey(k) ==> !IsPrimaryKey(k) && !(P_SEGMENT <= k) && !(P_STATS <= k)
    ensures IsPrimaryKey(k) ==> !(P_SEGMENT <= k) && !(P_STATS <= k)
  {
    assert IsIndexKey(k) ==> k[0] == 'd' && k[1] != '|';
    assert IsPrimaryKey(k) ==> k[0] == 'd' && k[1] == '|';
    assert P_SEGMENT <= k ==> k[0] == 's';
    assert P_STATS <= k ==> k[0] == 'q';
  }

  lemma KDownloadInjective(i: string, j: string)
    ensures KDownload(i) == KDownload(j) ==> i == j
  {
    assert KDownload(i)[|P_DOWNLOAD|..] == i && KDownload(j)[|P_DOWNLOAD|..] == j;
  }

  /** Statistics of different queues, and segments of different downloads or indexes, are different rows. */
  lemma RowKeysInjective(i: string, j: string, m: nat, n: nat)
    ensures KStats(i) == KStats(j) ==> i == j
    ensures '|' !in i && '|' !in j && m < Pow10(INDEX_WIDTH) && n < Pow10(INDEX_WIDTH) && KSegment(i, m) == KSegment(j, n)
            ==> i == j && m == n
  {
    assert KStats(i)[|P_STATS|..] == i && KStats(j)[|P_STATS|..] == j;
    if m < Pow10(INDEX_WIDTH) && n < Pow10(INDEX_WIDTH) && KSegment(i, m) == KSegment(j, n) {
      PaddedOrder(m, n, INDEX_WIDTH);
      var a, b := P_SEGMENT + "|" + i + "|", P_SEGMENT + "|" + j + "|";
      assert KSegment(i, m) == a + Padded(m, INDEX_WIDTH) && KSegment(j, n) == b + Padded(n, INDEX_WIDTH);
      assert |a| == |b| && (a + Padded(m, INDEX_WIDTH))[..|a|] == a && (b + Padded(n, INDEX_WIDTH))[..|b|] == b;
      assert (a + Padded(m, INDEX_WIDTH))[|a|..] == Padded(m, INDEX_WIDTH);
      assert (b + Padded(n, INDEX_WIDTH))[|b|..] == Padded(n, INDEX_WIDTH);
      assert a[|P_SEGMENT| + 1..|a| - 1] == i && b[|P_SEGMENT| + 1..|b| - 1] == j;
    }
  }

  /** Time keys are 20 digits and compare as their instants. */
  lemma TimeKeyOrder(s: Nanos, t: Nanos)
    ensures |TimeKey(s)| == |TimeKey(t)| == TIME_WIDTH
    ensures Less(TimeKey(s), TimeKey(t)) <==> s < t
    ensures TimeKey(s) == TimeKey(t) <==> s == t
  {
    assert Pow10(10) == 1_00000_00000;
    assert Pow10(20) == 1_00000_00000 * Pow10(10);
    PaddedOrder(s, t, TIME_WIDTH);
  }

  /** Within one family and value, index keys are ordered by creation time and then by id. */
  lemma TailOrder(anchor: string, s: Nanos, i: string, t: Nanos, j: string)
    ensures Less(anchor + Tail(s, i), anchor + Tail(t, j)) <==> s < t || (s == t && Less(i, j))
    ensures anchor + Tail(s, i) == anchor + Tail(t, j) <==> s == t && i == j
  {
    var a, b := TimeKey(s), TimeKey(t);
    LessAfterPrefix(anchor, Tail(s, i), Tail(t, j));
    TimeKeyOrder(s, t);
    assert Tail(s, i) == a + ("|" + i) && Tail(t, j) == b + ("|" + j);
    if a == b {
      LessAfterPrefix(a + "|", i, j);
      assert Tail(s, i)[|a| + 1..] == i && Tail(t, j)[|b| + 1..] == j;
    } else {
      LessByHead(a, b, "|" + i, "|" + j);
      assert Tail(s, i)[..|a|] == a && Tail(t, j)[..|b|] == b;
    }
    assert (anchor + Tail(s, i))[|anchor|..] == Tail(s, i);
    assert (anchor + Tail(t, j))[|anchor|..] == Tail(t, j);
  }

  /** The id is recovered from any index key, whatever the queue, status or tag contains. */
  lemma IdIsRecovered(anchor: string, t: Nanos, id: string)
    requires '|' !in id
    ensures IdOf(anchor + Tail(t, id)) == id
  {
    assert anchor + Tail(t, id) == (anchor + TimeKey(t)) + "|" + id;
    LastFieldAfterBar(anchor + TimeKey(t), id);
  }

  /** An index key determines its value, its instant and its id. */
  lemma AnchoredInjective(a: string, s: Nanos, i: string, b: string, t: Nanos, j: string)
    requires '|' !in i && '|' !in j
    requires a + Tail(s, i) == b + Tail(t, j)
    ensures a == b && s == t && i == j
  {
    IdIsRecovered(a, s, i);
    IdIsRecovered(b, t, j);
    TimeKeyOrder(s, t);
    assert |Tail(s, i)| == |Tail(t, j)|;
    assert a == (a + Tail(s, i))[..|a|] && b == (b + Tail(t, j))[..|b|];
    TailOrder(a, s, i, t, j);
  }
}
