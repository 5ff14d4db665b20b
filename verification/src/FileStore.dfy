/**
 The local file store (internal/filestore/filestore.go): part files that grow at their end, and the
 merge of the parts into the target file.
 */
module FileStore {
  import opened Text
  import opened Models

  const PART_SUFFIX := ".part"
  const NAME_WIDTH := 9
  const TMP_SUFFIX := ".merge.tmp"
  const MARKER := ".merge.lock"

  type Files = map<string, string>

  function PartName(index: nat): string { Padded(index, NAME_WIDTH) + PART_SUFFIX }

  predicate HasSuffix(s: string, suffix: string) {
    |s| >= |suffix| && s[|s| - |suffix|..] == suffix
  }

  /** The bytes of a part file; a missing file is created empty when it is opened. */
  function PartOf(temp: Files, index: nat): string {
    if PartName(index) in temp then temp[PartName(index)] else ""
  }

  /** The names of the part files in ascending order. */
  function Parts(temp: Files): seq<string> { Sorted(set f | f in temp && HasSuffix(f, PART_SUFFIX)) }

  function JoinParts(temp: Files, names: seq<string>): string
    requires forall i | 0 <= i < |names| :: names[i] in temp
  {
    if names == [] then "" else JoinParts(temp, names[..|names| - 1]) + temp[names[|names| - 1]]
  }

  /** What a merge writes: the parts, one after the other. */
  function Joined(temp: Files): string
  {
    PartsAreFiles(temp);
    JoinParts(temp, Parts(temp))
  }

  lemma PartsAreFiles(temp: Files)
    ensures forall i | 0 <= i < |Parts(temp)| :: Parts(temp)[i] in temp
  {
    assert forall i | 0 <= i < |Parts(temp)| :: Parts(temp)[i] in Parts(temp);
  }

  // ---- Target names ----

  datatype FileOptions = FileOptions(filename: string, overwrite: bool, uniqueFilename: bool)

  /** The target's name, for which an id stands in when no name is given. */
  function FinalName(o: FileOptions, id: string): string { if o.filename == "" then id else o.filename }

  /** `filepath.Ext` of a name without directories: the part from the last dot on. */
  function Ext(name: string): string {
    if name == "" then ""
    else
      var rest := Ext(name[1..]);
      if rest == "" && name[0] == '.' then name else rest
  }

  lemma {:induction false} ExtIsSuffix(name: string)
    ensures HasSuffix(name, Ext(name))
  {
    if name != "" {
      ExtIsSuffix(name[1..]);
    }
  }

  function Stem(name: string): string {
    ExtIsSuffix(name);
    name[..|name| - |Ext(name)|]
  }

  /** The i-th name tried for a target that must not clash. */
  function Candidate(name: string, i: nat): string {
    Stem(name) + (" (" + Decimal(i) + ")") + Ext(name)
  }

  lemma {:induction false} DecimalInjective(m: nat, n: nat)
    requires Decimal(m) == Decimal(n)
    ensures m == n
  {
    if m >= 10 && n >= 10 {
      assert Decimal(m)[..|Decimal(m)| - 1] == Decimal(m / 10) && Decimal(n)[..|Decimal(n)| - 1] == Decimal(n / 10);
      assert Decimal(m)[|Decimal(m)| - 1] == Digit(m % 10) && Decimal(n)[|Decimal(n)| - 1] == Digit(n % 10);
      DecimalInjective(m / 10, n / 10);
    }
  }

  lemma CandidateInjective(name: string, i: nat, j: nat)
    requires Candidate(name, i) == Candidate(name, j)
    ensures i == j
  {
    var a, x, y := Stem(name) + " (", Decimal(i), Decimal(j);
    var b := ")" + Ext(name);
    assert Candidate(name, i) == a + x + b && Candidate(name, j) == a + y + b;
    assert |x| == |y|;
    assert x == (a + x + b)[|a|..|a| + |x|] && y == (a + y + b)[|a|..|a| + |y|];
    DecimalInjective(i, j);
  }

  function Candidates(name: string, n: nat): set<string> { set i: nat | 1 <= i <= n :: Candidate(name, i) }

  /** The first n candidates are n different names. */
  lemma {:induction false} CandidatesCount(name: string, n: nat)
    ensures |Candidates(name, n)| == n
  {
    if n == 0 {
      assert Candidates(name, 0) == {};
    } else {
      CandidatesCount(name, n - 1);
      assert Candidates(name, n) == Candidates(name, n - 1) + {Candidate(name, n)};
      if Candidate(name, n) in Candidates(name, n - 1) {
        var i: nat :| 1 <= i <= n - 1 && Candidate(name, i) == Candidate(name, n);
        CandidateInjective(name, i, n);
      }
    }
  }

  /** Only finitely many names are taken, so a free one is found. */
  lemma TakenCandidatesBounded(name: string, files: Files, n: nat)
    requires forall i | 1 <= i <= n :: Candidate(name, i) in files
    ensures n <= |files|
  {
    CandidatesCount(name, n);
    SubsetSize(Candidates(name, n), files.Keys);
  }

  lemma {:induction false} SubsetSize(a: set<string>, b: set<string>)
    requires a <= b
    ensures |a| <= |b|
  {
    if a != {} {
      var x :| x in a;
      SubsetSize(a - {x}, b - {x});
    }
  }

  /** A wanted name is used as it is; the id stands in for an empty one only. */
  lemma NameAsWanted(o: FileOptions, id: string)
    ensures o.filename != "" ==> FinalName(o, id) == o.filename
    ensures o.filename == "" ==> FinalName(o, id) == id
  {
  }

  /** The extension is what follows the last dot, with the dot; without a dot there is none. */
  lemma {:induction false} ExtIsLast(base: string, e: string)
    requires '.' !in e
    ensures Ext(base + "." + e) == "." + e
    ensures '.' !in base ==> Ext(base) == ""
  {
    var name := base + "." + e;
    if base == "" {
      NoDotNoExt(e);
      assert name[1..] == e;
    } else {
      ExtIsLast(base[1..], e);
      assert name[1..] == base[1..] + "." + e;
      if '.' !in base { NoDotNoExt(base); }
    }
  }

  lemma {:induction false} NoDotNoExt(s: string)
    requires '.' !in s
    ensures Ext(s) == ""
  {
    if s != "" {
      NoDotNoExt(s[1..]);
    }
  }

  /** The number goes in front of the last dot, or to the end of a name without one. */
  lemma CandidateForm(base: string, e: string, i: nat)
    requires '.' !in e
    ensures Candidate(base + "." + e, i) == base + " (" + Decimal(i) + ")." + e
    ensures '.' !in base ==> Candidate(base, i) == base + " (" + Decimal(i) + ")"
  {
    ExtIsLast(base, e);
    var name := base + "." + e;
    assert name == base + ("." + e) && name[..|base|] == base;
    assert '.' !in base ==> Stem(base) == base;
  }

  // ---- The store ----

  datatype MergeError = NoParts | TargetExists | IOError

  datatype MergeResult = Merged(name: string) | NotMerged(error: MergeError)

  /** The name that a merge must write to: the wanted one if it is free or may be overwritten, else the
      first free candidate. */
  ghost predicate IsTargetFor(o: FileOptions, id: string, before: Files, name: string) {
    if FinalName(o, id) !in before || o.overwrite then name == FinalName(o, id)
    else o.uniqueFilename && exists i: nat | i >= 1 :: IsFirstFree(o.filename, i, before) && name == Candidate(o.filename, i)
  }

  /** There is a name to write to. */
  predicate HasTarget(o: FileOptions, id: string, before: Files) {
    FinalName(o, id) !in before || o.overwrite || o.uniqueFilename
  }

  ghost predicate IsFirstFree(filename: string, i: nat, before: Files) {
    Candidate(filename, i) !in before && forall j: nat | 1 <= j < i :: Candidate(filename, j) in before
  }

  /** All files but the temporary one of a possible target are as they were. */
  ghost predicate OnlyTemporary(o: FileOptions, id: string, before: Files, now: Files) {
    now == before || exists name :: IsTargetFor(o, id, before, name) && now - {name + TMP_SUFFIX} == before - {name + TMP_SUFFIX}
  }

  /** `temp` is the download's own directory of part files, `target` the directory of finished files. */
  class LocalFileStore {
    var temp: Files
    var target: Files

    constructor (temp: Files, target: Files)
      ensures this.temp == temp && this.target == target
    {
      this.temp := temp;
      this.target := target;
    }

    /** Opens a part file for appending and tells its size; `opens` is whether the system lets us. */
    method OpenSegmentWriter(index: nat, opens: bool) returns (size: Option<nat>)
      modifies this`temp
      ensures if opens
              then temp == old(temp)[PartName(index) := PartOf(old(temp), index)] && size == Some(|PartOf(old(temp), index)|)
              else temp == old(temp) && size == None
    {
      if !opens {
        return None;
      }
      temp := temp[PartName(index) := PartOf(temp, index)];
      size := Some(|temp[PartName(index)]|);
    }

    /** Writes go to the end of the file, whatever offset the caller has in mind. */
    method Write(index: nat, data: string)
      requires PartName(index) in temp
      modifies this`temp
      ensures temp == old(temp)[PartName(index) := old(temp)[PartName(index)] + data]
    {
      temp := temp[PartName(index) := temp[PartName(index)] + data];
    }

    /** A file operation may fail, unless the system is sound. */
    method Attempt(sound: bool) returns (ok: bool)
      ensures sound ==> ok
    {
      ok := *;
      ok := ok || sound;
    }

    /** The target's name; the search for a free one tries (1), (2), ... in turn. */
    method ChooseTarget(o: FileOptions, id: string) returns (name: Option<string>)
      ensures if name.Some? then IsTargetFor(o, id, target, name.value)
              else FinalName(o, id) in target && !o.overwrite && !o.uniqueFilename
      ensures name.Some? <==> HasTarget(o, id, target)
    {
      var wanted := FinalName(o, id);
      if wanted !in target || o.overwrite {
        return Some(wanted);
      }
      if !o.uniqueFilename {
        return None;
      }
      var i := 1;
      while Candidate(o.filename, i) in target
        invariant i >= 1 && forall j: nat | 1 <= j < i :: Candidate(o.filename, j) in target
        decreases |target| + 1 - i
      {
        TakenCandidatesBounded(o.filename, target, i);
        i := i + 1;
      }
      assert IsFirstFree(o.filename, i, target);
      name := Some(Candidate(o.filename, i));
    }

    /** Merges the parts. Either the target gets the parts in order and the part files go, or every
        file but the temporary one is as before. An existing file is replaced only on request. */
    method MergeSegments(o: FileOptions, id: string, sound: bool := false) returns (r: MergeResult)
      modifies this
      ensures match r
              case Merged(name) =>
                && IsTargetFor(o, id, old(target), name)
                && (name in old(target) ==> o.overwrite)
                && target == (old(target) - {name + TMP_SUFFIX})[name := Joined(old(temp))]
                && Parts(old(temp)) != [] && temp == map[]
              case NotMerged(e) =>
                && Joined(temp) == Joined(old(temp)) && temp - {MARKER} == old(temp) - {MARKER}
                && OnlyTemporary(o, id, old(target), target)
                && (e == NoParts ==> Parts(old(temp)) == [])
                && (e == TargetExists ==> FinalName(o, id) in old(target) && !o.overwrite && !o.uniqueFilename)
      ensures sound ==> (r.Merged? <==> Parts(old(temp)) != [] && HasTarget(o, id, old(target)))
    {
      ghost var was := temp;
      var listed := Attempt(sound);
      if !listed {
        return NotMerged(IOError);
      }
      var parts := Parts(temp);
      PartsAreFiles(temp);
      if |parts| == 0 {
        return NotMerged(NoParts);
      }
      var chosen := ChooseTarget(o, id);
      if chosen.None? {
        return NotMerged(TargetExists);
      }
      var name := chosen.value;
      var made := Attempt(sound);
      if !made {
        return NotMerged(IOError);
      }
      var marked := Attempt(sound);
      if marked {
        temp := temp[MARKER := "inprogress"];
      }
      MarkerIgnored(was, temp);
      r := CopyAndRename(parts, name, sound);
      if r.Merged? {
        temp := map[];
      } else {
        temp := temp - {MARKER};
        MarkerIgnored(was, temp);
      }
    }

    /** Copies the parts into the temporary file and renames it to the target. */
    method CopyAndRename(parts: seq<string>, name: string, sound: bool) returns (r: MergeResult)
      requires forall i | 0 <= i < |parts| :: parts[i] in temp
      modifies this`target
      ensures match r
              case Merged(n) => n == name && target == (old(target) - {name + TMP_SUFFIX})[name := JoinParts(temp, parts)]
              case NotMerged(e) => e == IOError && target - {name + TMP_SUFFIX} == old(target) - {name + TMP_SUFFIX}
      ensures sound ==> r.Merged?
    {
      var tmp := name + TMP_SUFFIX;
      target := target - {tmp};
      var created := Attempt(sound);
      if !created {
        return NotMerged(IOError);
      }
      target := target[tmp := ""];
      for i := 0 to |parts|
        invariant tmp in target && target[tmp] == JoinParts(temp, parts[..i])
        invariant target - {tmp} == old(target) - {tmp}
      {
        assert parts[..i + 1][..i] == parts[..i];
        var found := Attempt(sound);
        if !found {
          return NotMerged(IOError);
        }
        var copied := Attempt(sound);
        if !copied {
          var some: string := *;
          target := target[tmp := target[tmp] + some];
          return NotMerged(IOError);
        }
        target := target[tmp := target[tmp] + temp[parts[i]]];
      }
      assert parts[..|parts|] == parts;
      var flushed := Attempt(sound);
      if !flushed {
        return NotMerged(IOError);
      }
      var renamed := Attempt(sound);
      if !renamed {
        return NotMerged(IOError);
      }
      var whole := target[tmp];
      target := (target - {tmp})[name := whole];
      r := Merged(name);
    }
  }

  lemma MarkerIsNoPart()
    ensures !HasSuffix(MARKER, PART_SUFFIX)
  {
    assert MARKER[|MARKER| - |PART_SUFFIX|..][4] == 'k' && PART_SUFFIX[4] == 't';
  }

  /** The merge marker is not a part, so it does not change what is merged. */
  lemma MarkerIgnored(was: Files, now: Files)
    requires now - {MARKER} == was - {MARKER}
    ensures Parts(now) == Parts(was) && Joined(now) == Joined(was)
  {
    MarkerIsNoPart();
    PartsAreFiles(was);
    forall f | f != MARKER ensures (f in was <==> f in now) && (f in was ==> was[f] == now[f]) {
      assert f in was - {MARKER} <==> f in now - {MARKER};
      assert f in was ==> (was - {MARKER})[f] == (now - {MARKER})[f];
    }
    assert (set f | f in was && HasSuffix(f, PART_SUFFIX)) == (set f | f in now && HasSuffix(f, PART_SUFFIX));
    forall i | 0 <= i < |Parts(was)| ensures Parts(was)[i] in was && Parts(was)[i] != MARKER {
      assert Parts(was)[i] in Parts(was);
    }
    SameParts(was, now, Parts(was));
  }

  lemma {:induction false} SameParts(a: Files, b: Files, names: seq<string>)
    requires forall i | 0 <= i < |names| :: names[i] in a && names[i] in b && a[names[i]] == b[names[i]]
    ensures JoinParts(a, names) == JoinParts(b, names)
  {
    if names != [] {
      SameParts(a, b, names[..|names| - 1]);
    }
  }
}
