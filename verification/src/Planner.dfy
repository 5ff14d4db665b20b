/**
 Planning byte ranges (internal/planner/planner.go).
 */
module Planner {
  import opened Text
  import opened Models

  const DEFAULT_CONNECTIONS := 4

  /** `MaxConnections` of the configuration, if there is one and it is positive. */
  function Connections(configured: Option<int>): (n: nat)
    ensures n > 0
  {
    if configured.Some? && configured.value > 0 then configured.value else DEFAULT_CONNECTIONS
  }

  function SegmentAt(id: string, length: nat, n: nat, i: nat): Segment
    requires i < n
  {
    Segment(id, i, (length / n) * i, if i == n - 1 then length - 1 else (length / n) * (i + 1) - 1)
  }

  function PlanOf(id: string, length: nat, n: nat): (r: seq<Segment>)
    ensures |r| == n && forall i | 0 <= i < n :: r[i] == SegmentAt(id, length, n, i)
  {
    seq(n, i requires 0 <= i < n => SegmentAt(id, length, n, i))
  }

  method Plan(id: string, configured: Option<int>, contentLength: int, acceptRanges: bool)
    returns (segs: seq<Segment>)
    ensures if acceptRanges && contentLength > 0
            then segs == PlanOf(id, contentLength, Connections(configured))
            else segs == [Segment(id, 0, 0, -1)]
    ensures acceptRanges && contentLength > 0 ==>
              |segs| == if configured.Some? && configured.value > 0 then configured.value else 4
  {
    if !acceptRanges || contentLength <= 0 {
      return [Segment(id, 0, 0, -1)];
    }
    var maxConns := Connections(configured);
    var segments := new Segment[maxConns];
    for i := 0 to maxConns
      invariant forall j | 0 <= j < i :: segments[j] == SegmentAt(id, contentLength, maxConns, j)
    {
      var start := (contentLength / maxConns) * i;
      var end := (contentLength / maxConns) * (i + 1);
      if i == maxConns - 1 {
        end := contentLength - 1;
      } else {
        end := end - 1;
      }
      segments[i] := Segment(id, i, start, end);
    }
    segs := segments[..];
  }

  // ---- Tiling ----

  /** No product computed for a segment exceeds the content length, so none overflows an int64. */
  lemma ProductsBounded(length: nat, n: nat, i: nat)
    requires i < n
    ensures 0 <= (length / n) * i <= (length / n) * (i + 1) <= length
  {
    var base := length / n;
    assert base * n <= length;
    MulMonotone(base, i, i + 1);
    MulMonotone(base, i + 1, n);
  }

  lemma MulMonotone(a: nat, i: nat, j: nat)
    requires i <= j
    ensures a * i <= a * j
  {
  }

  /** An unknown end is planned exactly when there are fewer bytes than connections. */
  lemma OpenEndIff(id: string, length: nat, n: nat)
    requires length > 0 && n > 0
    ensures (exists i | 0 <= i < n :: PlanOf(id, length, n)[i].end == -1) <==> length < n
  {
    if length < n {
      assert length / n == 0;
      assert n > 1 && SegmentAt(id, length, n, 0).end == -1;
      assert PlanOf(id, length, n)[0].end == -1;
    } else {
      forall i | 0 <= i < n ensures PlanOf(id, length, n)[i].end != -1 {
        PlanIsTiling(id, length, n, i);
      }
    }
  }

  /** With at least one byte for each connection, segments are non-empty and follow one another from
      the first byte to the last. */
  lemma PlanIsTiling(id: string, length: nat, n: nat, i: nat)
    requires i < n <= length
    ensures var s := SegmentAt(id, length, n, i);
            && 0 <= s.start <= s.end < length
            && (i == 0 ==> s.start == 0)
            && (i == n - 1 ==> s.end == length - 1)
            && (i < n - 1 ==> SegmentAt(id, length, n, i + 1).start == s.end + 1)
  {
    var base := length / n;
    assert base >= 1;
    ProductsBounded(length, n, i);
    assert base * (i + 1) == base * i + base;
    if i == n - 1 {
      assert base * i <= length - base;
    }
  }

  /** The bytes of a planned segment. */
  function Slice(content: string, s: Segment): string
    requires 0 <= s.start <= s.end + 1 <= |content|
  {
    content[s.start..s.end + 1]
  }

  /** The bytes of the first k segments, one after the other. */
  function Slices(content: string, id: string, n: nat, k: nat): string
    requires k <= n <= |content|
  {
    if k == 0 then ""
    else
      PlanIsTiling(id, |content|, n, k - 1);
      Slices(content, id, n, k - 1) + Slice(content, SegmentAt(id, |content|, n, k - 1))
  }

  lemma {:induction false} SlicesCover(content: string, id: string, n: nat, k: nat)
    requires 0 < k <= n <= |content|
    ensures Slices(content, id, n, k) == content[..SegmentAt(id, |content|, n, k - 1).end + 1]
  {
    PlanIsTiling(id, |content|, n, k - 1);
    if k > 1 {
      SlicesCover(content, id, n, k - 1);
      PlanIsTiling(id, |content|, n, k - 2);
    } else {
      assert Slices(content, id, n, 0) == "";
    }
  }

  /** The planned slices, in index order, are the content: nothing lost, nothing twice. */
  lemma PlanCoversContent(content: string, id: string, n: nat)
    requires 0 < n <= |content|
    ensures Slices(content, id, n, n) == content
  {
    SlicesCover(content, id, n, n);
    PlanIsTiling(id, |content|, n, n - 1);
    assert content[..|content|] == content;
  }
}
