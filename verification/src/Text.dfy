/**
 Strings as the service uses them. A Go string is a sequence of bytes; here it is a `string`
 with one char per byte, so `Less` is the order of `bytes.Compare` and `sort.Strings`.
 */
module Text {

  datatype Option<+T> = None | Some(value: T)

  // ---- Lexicographic order ----

  /** a sorts strictly before b. */
  predicate Less(a: string, b: string) {
    if b == [] then false
    else if a == [] then true
    else if a[0] != b[0] then a[0] < b[0]
    else Less(a[1..], b[1..])
  }

  /** `Less` is a strict total order. */
  lemma {:induction false} LessTotal(a: string, b: string)
    ensures (a == b && !Less(a, b) && !Less(b, a))
         || (a != b && Less(a, b) && !Less(b, a))
         || (a != b && !Less(a, b) && Less(b, a))
  {
    if a == [] || b == [] {
    } else if a[0] == b[0] {
      assert a == [a[0]] + a[1..] && b == [b[0]] + b[1..];
      LessTotal(a[1..], b[1..]);
    }
  }

  lemma {:induction false} LessTransitive(a: string, b: string, c: string)
    requires Less(a, b) && Less(b, c)
    ensures Less(a, c)
  {
    if a != [] && a[0] == b[0] && b[0] == c[0] {
      LessTransitive(a[1..], b[1..], c[1..]);
    }
  }

  /** A common prefix does not take part in the comparison. */
  lemma {:induction false} LessAfterPrefix(p: string, a: string, b: string)
    ensures Less(p + a, p + b) <==> Less(a, b)
  {
    if p == [] {
      assert p + a == a && p + b == b;
    } else {
      assert (p + a)[1..] == p[1..] + a && (p + b)[1..] == p[1..] + b;
      LessAfterPrefix(p[1..], a, b);
    }
  }

  /** Two different strings of one length decide the comparison of everything that extends them. */
  lemma {:induction false} LessByHead(a: string, b: string, x: string, y: string)
    requires |a| == |b| && a != b
    ensures Less(a + x, b + y) <==> Less(a, b)
  {
    assert (a + x)[0] == a[0] && (b + y)[0] == b[0];
    if a[0] == b[0] {
      assert (a + x)[1..] == a[1..] + x && (b + y)[1..] == b[1..] + y;
      assert a == [a[0]] + a[1..] && b == [b[0]] + b[1..];
      LessByHead(a[1..], b[1..], x, y);
    }
  }

  // ---- Sorting a set of keys ----

  ghost predicate Ascending(s: seq<string>) {
    forall i, j | 0 <= i < j < |s| :: Less(s[i], s[j])
  }

  predicate IsLeast(m: string, s: set<string>) {
    m in s && forall x | x in s :: x == m || Less(m, x)
  }

  lemma {:induction false} LeastExists(s: set<string>)
    requires s != {}
    ensures exists m :: IsLeast(m, s)
  {
    var x :| x in s;
    if s == {x} {
      assert IsLeast(x, s);
    } else {
      LeastExists(s - {x});
      var m :| IsLeast(m, s - {x});
      LessTotal(m, x);
      if Less(m, x) {
        assert IsLeast(m, s);
      } else {
        forall y | y in s ensures y == x || Less(x, y) {
          if y != x && y != m {
            LessTransitive(x, m, y);
          }
        }
        assert IsLeast(x, s);
      }
    }
  }

  lemma LeastIsUnique(s: set<string>)
    ensures forall m, m' | IsLeast(m, s) && IsLeast(m', s) :: m == m'
  {
    forall m, m' | IsLeast(m, s) && IsLeast(m', s) ensures m == m' {
      LessTotal(m, m');
    }
  }

  /** The elements of s in ascending order: what an iterator over the store yields, and what
      `sort.Strings` makes of a list of distinct names. */
  function Sorted(s: set<string>): (r: seq<string>)
    ensures Ascending(r)
    ensures forall x :: x in r <==> x in s
    decreases s
  {
    if s == {} then []
    else
      LeastExists(s); LeastIsUnique(s);
      var m :| IsLeast(m, s);
      var rest := Sorted(s - {m});
      assert forall i | 0 <= i < |rest| :: rest[i] in s - {m};
      [m] + rest
  }

  /** An ascending sequence is determined by its elements. */
  lemma {:induction false} AscendingUnique(a: seq<string>, b: seq<string>)
    requires Ascending(a) && Ascending(b)
    requires forall x :: x in a <==> x in b
    ensures a == b
  {
    assert forall i | 0 <= i < |a| :: a[i] in b;
    assert forall i | 0 <= i < |b| :: b[i] in a;
    if a != [] && b != [] {
      LessTotal(a[0], b[0]);
      assert a[0] == b[0];
      forall x ensures x in a[1..] <==> x in b[1..] {
        LessTotal(a[0], a[0]);
        if x in a[1..] { assert x in a; assert x in b; }
        if x in b[1..] { assert x in b; assert x in a; }
      }
      AscendingUnique(a[1..], b[1..]);
    }
  }

  // ---- Splitting ----

  /** `bytes.Split(s, sep)` for a one-byte separator. */
  function Split(s: string, sep: char): (r: seq<string>)
    ensures |r| > 0
  {
    if s == [] then [""]
    else
      var rest := Split(s[1..], sep);
      if s[0] == sep then [""] + rest else [[s[0]] + rest[0]] + rest[1..]
  }

  function LastField(s: string): string {
    var parts := Split(s, '|');
    parts[|parts| - 1]
  }

  lemma {:induction false} SplitNoSeparator(s: string, sep: char)
    requires sep !in s
    ensures Split(s, sep) == [s]
  {
    if s != [] {
      SplitNoSeparator(s[1..], sep);
      assert s == [s[0]] + s[1..];
    }
  }

  /** Whatever comes before, the part after the last bar is recovered. */
  lemma {:induction false} LastFieldAfterBar(a: string, id: string)
    requires '|' !in id
    ensures LastField(a + "|" + id) == id
  {
    var s := a + "|" + id;
    if a == [] {
      assert s[1..] == id;
      SplitNoSeparator(id, '|');
    } else {
      assert s[1..] == a[1..] + "|" + id;
      LastFieldAfterBar(a[1..], id);
      SplitAtBar(a[1..], id);
    }
  }

  lemma {:induction false} SplitAtBar(a: string, id: string)
    ensures |Split(a + "|" + id, '|')| >= 2
  {
    var s := a + "|" + id;
    if a == [] {
      assert s[1..] == id;
    } else {
      assert s[1..] == a[1..] + "|" + id;
      SplitAtBar(a[1..], id);
    }
  }

  // ---- Case ----

  /** `strings.ToLower` on ASCII. */
  function ToLower(s: string): (r: string)
    ensures |r| == |s|
  {
    seq(|s|, i requires 0 <= i < |s| => if 'A' <= s[i] <= 'Z' then s[i] + 32 as char else s[i])
  }

  /** `strings.EqualFold` on ASCII. */
  predicate EqualFold(a: string, b: string) { ToLower(a) == ToLower(b) }

  /** The same character, or the two cases of one ASCII letter. */
  predicate SameLetter(c: char, d: char) {
    c == d || ('A' <= c <= 'Z' && d as int == c as int + 32) || ('A' <= d <= 'Z' && c as int == d as int + 32)
  }

  /** Two strings fold together iff they differ in the case of letters at most. */
  lemma EqualFoldIff(a: string, b: string)
    ensures EqualFold(a, b) <==> |a| == |b| && forall i | 0 <= i < |a| :: SameLetter(a[i], b[i])
  {
    if EqualFold(a, b) {
      forall i | 0 <= i < |a| ensures SameLetter(a[i], b[i]) { assert ToLower(a)[i] == ToLower(b)[i]; }
    }
  }

  /** Folding leaves no capital, and folding again changes nothing. */
  lemma ToLowerFolds(s: string)
    ensures forall i | 0 <= i < |s| :: !('A' <= ToLower(s)[i] <= 'Z') && SameLetter(s[i], ToLower(s)[i])
    ensures ToLower(ToLower(s)) == ToLower(s)
  {
  }

  /** The text has the words at i, in whatever case. */
  predicate FoundAt(text: string, words: string, i: nat) {
    i + |words| <= |text| && forall j | 0 <= j < |words| :: SameLetter(text[i + j], words[j])
  }

  predicate FoundIn(text: string, words: string) { exists i | 0 <= i <= |text| :: FoundAt(text, words, i) }

  /** Looking for folded words in a folded text is looking for the words in whatever case. */
  lemma ContainsIff(text: string, words: string)
    ensures Contains(ToLower(text), ToLower(words)) <==> FoundIn(text, words)
  {
    forall i | 0 <= i <= |text| ensures ToLower(words) <= ToLower(text)[i..] <==> FoundAt(text, words, i) {
      if i + |words| <= |text| {
        EqualFoldIff(text[i..i + |words|], words);
        assert ToLower(text[i..i + |words|]) == ToLower(text)[i..][..|words|];
      }
    }
  }

  /** Words without a bar are found in two texts with a bar between them iff they are found in one of them. */
  lemma FoundAcrossBar(a: string, b: string, words: string)
    requires '|' !in words && words != ""
    ensures FoundIn(a + "|" + b, words) <==> FoundIn(a, words) || FoundIn(b, words)
  {
    var text := a + "|" + b;
    if i :| 0 <= i <= |text| && FoundAt(text, words, i) {
      forall j | i <= j < i + |words| ensures text[j] != '|' {
        assert SameLetter(text[i + (j - i)], words[j - i]);
      }
      assert text[|a|] == '|';
      if i + |words| <= |a| {
        assert FoundAt(a, words, i);
      } else {
        assert FoundAt(b, words, i - |a| - 1);
      }
    }
    if i :| 0 <= i <= |a| && FoundAt(a, words, i) { assert FoundAt(text, words, i); }
    if i :| 0 <= i <= |b| && FoundAt(b, words, i) { assert FoundAt(text, words, i + |a| + 1); }
  }

  /** `strings.Contains`. */
  predicate Contains(s: string, sub: string) {
    exists i | 0 <= i <= |s| :: sub <= s[i..]
  }

  // ---- Decimals ----

  function Pow10(w: nat): (r: nat)
    ensures r > 0
  {
    if w == 0 then 1 else 10 * Pow10(w - 1)
  }

  function Digit(n: nat): char
    requires n < 10
  {
    ('0' as int + n) as char
  }

  /** `fmt.Sprintf("%d", n)`. */
  function Decimal(n: nat): (r: string)
    ensures |r| > 0
  {
    if n < 10 then [Digit(n)] else Decimal(n / 10) + [Digit(n % 10)]
  }

  function Zeros(n: nat): (r: string)
    ensures |r| == n && forall i | 0 <= i < n :: r[i] == '0'
  {
    seq(n, i => '0')
  }

  /** `fmt.Sprintf("%0*d", w, n)`. */
  function Padded(n: nat, w: nat): string {
    var d := Decimal(n);
    if |d| < w then Zeros(w - |d|) + d else d
  }

  /** The last w decimal digits of n. */
  function FixedWidth(n: nat, w: nat): (r: string)
    ensures |r| == w
  {
    if w == 0 then [] else FixedWidth(n / 10, w - 1) + [Digit(n % 10)]
  }

  lemma {:induction false} PaddedIsFixedWidth(n: nat, w: nat)
    requires w > 0 && n < Pow10(w)
    ensures Padded(n, w) == FixedWidth(n, w)
  {
    if w == 1 {
      assert Pow10(1) == 10 * Pow10(0) == 10;
      assert Padded(n, 1) == [Digit(n)];
      assert FixedWidth(n, 1) == FixedWidth(n / 10, 0) + [Digit(n % 10)];
    } else {
      PaddedIsFixedWidth(n / 10, w - 1);
      assert Padded(n, w) == Padded(n / 10, w - 1) + [Digit(n % 10)] by {
        if n < 10 {
          assert Decimal(n / 10) == "0";
          assert Padded(0, w - 1) == Zeros(w - 2) + "0" == Zeros(w - 1);
        }
      }
    }
  }

  lemma {:induction false} FixedWidthOrder(m: nat, n: nat, w: nat)
    requires m < Pow10(w) && n < Pow10(w)
    ensures Less(FixedWidth(m, w), FixedWidth(n, w)) <==> m < n
    ensures FixedWidth(m, w) == FixedWidth(n, w) <==> m == n
  {
    if w > 0 {
      var a, b := FixedWidth(m / 10, w - 1), FixedWidth(n / 10, w - 1);
      var x, y := [Digit(m % 10)], [Digit(n % 10)];
      FixedWidthOrder(m / 10, n / 10, w - 1);
      if a == b {
        LessAfterPrefix(a, x, y);
        assert Less(x, y) <==> m % 10 < n % 10;
        assert a + x == a + y <==> x == y by { assert (a + x)[w - 1] == x[0] && (a + y)[w - 1] == y[0]; }
      } else {
        LessByHead(a, b, x, y);
        assert a + x != b + y by { assert (a + x)[..w - 1] == a && (b + y)[..w - 1] == b; }
      }
    }
  }

  /** Zero-padded decimals of one width sort as numbers. */
  lemma PaddedOrder(m: nat, n: nat, w: nat)
    requires w > 0 && m < Pow10(w) && n < Pow10(w)
    ensures |Padded(m, w)| == |Padded(n, w)| == w
    ensures Less(Padded(m, w), Padded(n, w)) <==> m < n
    ensures Padded(m, w) == Padded(n, w) <==> m == n
  {
    PaddedIsFixedWidth(m, w);
    PaddedIsFixedWidth(n, w);
    FixedWidthOrder(m, n, w);
  }
}
