/**
 Adding and removing tags without regard to case (internal/service/download.go:221-264).
 */
module Tags {
  import opened Text

  /** The tags as the index knows them. */
  ghost function Folded(tags: seq<string>): set<string> { set t | t in tags :: ToLower(t) }

  /** The tags after `AddTags`: each new one that is not there in any case, in order. */
  function Added(tags: seq<string>, more: seq<string>): seq<string> {
    if more == [] then tags
    else
      var sofar, t := Added(tags, more[..|more| - 1]), more[|more| - 1];
      if t == "" || IsListed(t, sofar) then sofar else sofar + [t]
  }

  /** The tags after `RemoveTags`. */
  function Removed(tags: seq<string>, less: seq<string>): seq<string> {
    if tags == [] then []
    else
      var n := |tags| - 1;
      Removed(tags[..n], less) + (if IsListed(tags[n], less) then [] else [tags[n]])
  }

  /** Whether the tag is among the given ones in any case. */
  predicate IsListed(t: string, tags: seq<string>) { exists u | u in tags :: ToLower(u) == ToLower(t) }

  method AddMissing(tags: seq<string>, more: seq<string>) returns (r: seq<string>)
    ensures r == Added(tags, more)
  {
    var known := Lowered(tags);
    r := tags;
    for i := 0 to |more|
      invariant r == Added(tags, more[..i]) && known == Folded(r)
    {
      assert more[..i + 1][..i] == more[..i];
      var t := more[i];
      if t != "" && ToLower(t) !in known {
        FoldedAppend(r, t);
        r := r + [t];
        known := known + {ToLower(t)};
      }
    }
    assert more[..|more|] == more;
  }

  method Lowered(tags: seq<string>) returns (r: set<string>)
    ensures r == Folded(tags)
  {
    r := {};
    for i := 0 to |tags|
      invariant r == Folded(tags[..i])
    {
      FoldedAppend(tags[..i], tags[i]);
      assert tags[..i + 1] == tags[..i] + [tags[i]];
      r := r + {ToLower(tags[i])};
    }
    assert tags[..|tags|] == tags;
  }

  method DropListed(tags: seq<string>, less: seq<string>) returns (r: seq<string>)
    ensures r == Removed(tags, less)
  {
    var gone := Lowered(less);
    r := [];
    for i := 0 to |tags|
      invariant r == Removed(tags[..i], less)
    {
      assert tags[..i + 1][..i] == tags[..i];
      if ToLower(tags[i]) !in gone {
        r := r + [tags[i]];
      }
    }
    assert tags[..|tags|] == tags;
  }

  lemma FoldedAppend(tags: seq<string>, t: string)
    ensures Folded(tags + [t]) == Folded(tags) + {ToLower(t)}
  {
    assert forall u | u in tags :: u in tags + [t];
    assert t in tags + [t];
  }

  /** No tag twice, in whatever case. */
  ghost predicate CaseDistinct(tags: seq<string>) {
    forall i, j | 0 <= i < j < |tags| :: ToLower(tags[i]) != ToLower(tags[j])
  }

  /** Adding keeps the tags in place, adds exactly the missing non-empty ones, and nothing twice. */
  lemma {:induction false} AddedIsUnion(tags: seq<string>, more: seq<string>)
    ensures tags <= Added(tags, more)
    ensures Folded(Added(tags, more)) == Folded(tags) + (Folded(more) - {""})
    ensures CaseDistinct(Added(tags, more)) <==> CaseDistinct(tags)
  {
    if more != [] {
      var n := |more| - 1;
      var sofar, t := Added(tags, more[..n]), more[n];
      AddedIsUnion(tags, more[..n]);
      FoldedAppend(more[..n], t);
      assert more == more[..n] + [t];
      FoldedAppend(sofar, t);
    }
  }

  lemma {:induction false} RemovedAppend(tags: seq<string>, more: seq<string>, less: seq<string>)
    ensures Removed(tags + more, less) == Removed(tags, less) + Removed(more, less)
  {
    if more == [] {
      assert tags + more == tags;
    } else {
      var n := |more| - 1;
      assert (tags + more)[..|tags| + n] == tags + more[..n];
      RemovedAppend(tags, more[..n], less);
    }
  }

  /** Removing takes every listed tag in whatever case, and no other. */
  lemma {:induction false} RemovedIsDifference(tags: seq<string>, less: seq<string>)
    ensures Folded(Removed(tags, less)) == Folded(tags) - Folded(less)
  {
    if tags != [] {
      var n := |tags| - 1;
      var before, t := Removed(tags[..n], less), tags[n];
      RemovedIsDifference(tags[..n], less);
      FoldedAppend(tags[..n], t);
      assert tags == tags[..n] + [t];
      ListedIffFolded(t, less);
      if IsListed(t, less) {
        assert Removed(tags, less) == before;
      } else {
        FoldedAppend(before, t);
        assert Removed(tags, less) == before + [t];
      }
    }
  }

  lemma ListedIffFolded(t: string, tags: seq<string>)
    ensures IsListed(t, tags) <==> ToLower(t) in Folded(tags)
  {
  }

  /** What is left is part of what there was, and no tag comes to be there twice. */
  lemma {:induction false} RemovedKeepsDistinct(tags: seq<string>, less: seq<string>)
    requires CaseDistinct(tags)
    ensures CaseDistinct(Removed(tags, less)) && forall t | t in Removed(tags, less) :: t in tags
  {
    if tags != [] {
      var n := |tags| - 1;
      RemovedKeepsDistinct(tags[..n], less);
      assert tags == tags[..n] + [tags[n]];
      forall i | 0 <= i < |Removed(tags[..n], less)|
        ensures ToLower(Removed(tags[..n], less)[i]) != ToLower(tags[n])
      {
        assert Removed(tags[..n], less)[i] in tags[..n];
      }
    }
  }

  /** Removing what was added leaves what removing alone would have left, in the same order. */
  lemma {:induction false} RemoveUndoesAdd(tags: seq<string>, more: seq<string>)
    ensures forall less | Folded(more) <= Folded(less) :: Removed(Added(tags, more), less) == Removed(tags, less)
  {
    if more != [] {
      var n := |more| - 1;
      var sofar, t := Added(tags, more[..n]), more[n];
      RemoveUndoesAdd(tags, more[..n]);
      FoldedAppend(more[..n], t);
      assert more == more[..n] + [t];
      forall less | Folded(more) <= Folded(less)
        ensures Removed(Added(tags, more), less) == Removed(tags, less)
      {
        assert ToLower(t) in Folded(less);
        RemovedAppend(sofar, [t], less);
        assert [t][..0] == [];
      }
    }
  }
}
