/**
 The Content-Range check of a partial response (internal/service/runner.go:198-237), against the
 header form of section 14.4 of RFC 9110.
 */
module ContentRange {
  import opened Text

  const MAX_INT64 := 0x7FFF_FFFF_FFFF_FFFF

  // ---- strings and strconv ----

  predicate IsSpace(c: char) { c == ' ' || '\t' <= c <= '\r' }

  /** `strings.Fields`: the maximal runs of characters that are not white space. */
  function Fields(s: string): seq<string> {
    if s == "" then []
    else if IsSpace(s[0]) then Fields(s[1..])
    else if |s| == 1 || IsSpace(s[1]) then [[s[0]]] + Fields(s[1..])
    else
      var rest := Fields(s[1..]);
      if rest == [] then [[s[0]]] else [[s[0]] + rest[0]] + rest[1..]
  }

  /** `strings.Index` for one character. */
  function Index(s: string, c: char): (i: int)
    ensures -1 <= i < |s|
    ensures i >= 0 ==> s[i] == c && forall j | 0 <= j < i :: s[j] != c
    ensures i == -1 ==> c !in s
  {
    if s == "" then -1
    else if s[0] == c then 0
    else
      var i := Index(s[1..], c);
      assert s == [s[0]] + s[1..];
      assert forall j | 0 < j < |s| :: s[j] == s[1..][j - 1];
      if i == -1 then -1 else i + 1
  }

  function ParseDigits(s: string): Option<nat> {
    if s == "" then Some(0)
    else
      var n := |s| - 1;
      var high := ParseDigits(s[..n]);
      if high.Some? && '0' <= s[n] <= '9' then Some(10 * high.value + (s[n] as int - '0' as int)) else None
  }

  /** `strconv.ParseInt(s, 10, 64)`. */
  function ParseInt(s: string): Option<int> {
    var signed := s != "" && (s[0] == '+' || s[0] == '-');
    var digits := if signed then s[1..] else s;
    var n := ParseDigits(digits);
    if digits == "" || n.None? then None
    else
      var magnitude: int := n.value;
      var v := if s[0] == '-' then -magnitude else magnitude;
      if -MAX_INT64 - 1 <= v <= MAX_INT64 then Some(v) else None
  }

  // ---- The check ----

  /** Whether the first byte position of the range contradicts the requested start. */
  predicate WrongStart(first: string, start: int) {
    var n := ParseInt(first);
    n.Some? && n.value != start
  }

  /** Whether the last byte position lies outside the requested range, when its end is known. */
  predicate WrongEnd(last: string, start: int, end: int) {
    var n := ParseInt(last);
    end >= 0 && n.Some? && (n.value < start || n.value > end)
  }

  /** A response is turned away when its header parses and contradicts the request; headers that do
      not parse are not held against it. */
  predicate Mismatch(header: string, start: int, end: int) {
    var parts := Fields(header);
    header != "" && |parts| == 2 && ToLower(parts[0]) == "bytes" &&
    var slash := Index(parts[1], '/');
    slash > 0 &&
    var range := parts[1][..slash];
    var hyphen := Index(range, '-');
    hyphen > 0 && (WrongStart(range[..hyphen], start) || WrongEnd(range[hyphen + 1..], start, end))
  }

  // ---- Well-formed headers ----

  /** The header of a partial response that carries bytes first to last. */
  function Header(first: nat, last: nat, total: string): string {
    "bytes " + RangeSpec(first, last, total)
  }

  function RangeSpec(first: nat, last: nat, total: string): string {
    Decimal(first) + "-" + Decimal(last) + "/" + total
  }

  /** The six ASCII characters of white space. */
  predicate IsGap(c: char) { c as int == 32 || 9 <= c as int <= 13 }

  predicate NoSpace(s: string) { forall i | 0 <= i < |s| :: !IsGap(s[i]) }

  lemma {:induction false} DecimalIsDigits(n: nat)
    ensures forall i | 0 <= i < |Decimal(n)| :: '0' <= Decimal(n)[i] <= '9'
  {
    if n >= 10 {
      DecimalIsDigits(n / 10);
    }
  }

  lemma {:induction false} ParsePrinted(n: nat)
    ensures ParseDigits(Decimal(n)) == Some(n)
  {
    if n >= 10 {
      ParsePrinted(n / 10);
      assert Decimal(n)[..|Decimal(n)| - 1] == Decimal(n / 10);
    } else {
      assert Decimal(n)[..0] == "";
    }
  }

  /** Printing and parsing a number is a round trip. */
  lemma ParseIntPrinted(n: nat)
    requires n <= MAX_INT64
    ensures ParseInt(Decimal(n)) == Some(n)
  {
    DecimalIsDigits(n);
    ParsePrinted(n);
  }

  lemma {:induction false} FieldsOfWord(s: string)
    requires s != "" && NoSpace(s)
    ensures Fields(s) == [s]
  {
    if |s| > 1 {
      FieldsOfWord(s[1..]);
      assert s == [s[0]] + s[1..];
    } else {
      assert s[1..] == "";
      assert s == [s[0]];
    }
  }

  lemma {:induction false} FieldsOfTwoWords(a: string, gap: char, b: string)
    requires a != "" && NoSpace(a) && IsGap(gap) && b != "" && NoSpace(b)
    ensures Fields(a + [gap] + b) == [a, b]
  {
    var s := a + [gap] + b;
    if |a| == 1 {
      assert s[1..] == [gap] + b && s[1..][1..] == b;
      FieldsOfWord(b);
      assert a == [s[0]];
    } else {
      assert s[1..] == a[1..] + [gap] + b;
      FieldsOfTwoWords(a[1..], gap, b);
      assert a == [a[0]] + a[1..];
    }
  }

  lemma IndexIsFirst(a: string, c: char, b: string)
    requires c !in a
    ensures Index(a + [c] + b, c) == |a|
  {
    var s := a + [c] + b;
    assert s[|a|] == c && c in s;
    assert forall j | 0 <= j < |a| :: s[j] == a[j] != c;
  }

  lemma RangeSpecParts(first: nat, last: nat, total: string)
    ensures var r := RangeSpec(first, last, total);
            var range := Decimal(first) + "-" + Decimal(last);
            && Index(r, '/') == |range| && r[..|range|] == range
            && Index(range, '-') == |Decimal(first)|
            && range[..|Decimal(first)|] == Decimal(first) && range[|Decimal(first)| + 1..] == Decimal(last)
  {
    DecimalIsDigits(first);
    DecimalIsDigits(last);
    var range := Decimal(first) + "-" + Decimal(last);
    IndexIsFirst(range, '/', total);
    IndexIsFirst(Decimal(first), '-', Decimal(last));
  }

  /** On well-formed headers the check is exact: the response is kept iff it starts at the requested
      byte and, when the end is known, ends inside the requested range. The total, which may be an
      asterisk, plays no part. */
  lemma CheckIsExact(first: nat, last: nat, total: string, start: int, end: int)
    requires first <= MAX_INT64 && last <= MAX_INT64 && NoSpace(total)
    ensures !Mismatch(Header(first, last, total), start, end) <==>
            first == start && (end >= 0 ==> start <= last <= end)
  {
    var spec := RangeSpec(first, last, total);
    DecimalIsDigits(first);
    DecimalIsDigits(last);
    assert NoSpace(spec);
    FieldsOfTwoWords("bytes", ' ', spec);
    assert Header(first, last, total) == "bytes" + [' '] + spec;
    assert ToLower("bytes") == "bytes";
    RangeSpecParts(first, last, total);
    ParseIntPrinted(first);
    ParseIntPrinted(last);
  }

  /** Parsing takes a sign, and refuses what does not fit in 64 bits. */
  lemma ParseIntRange(n: nat)
    ensures ParseInt(Decimal(n)) == if n <= MAX_INT64 then Some(n) else None
    ensures ParseInt("+" + Decimal(n)).Some? <==> n <= MAX_INT64
    ensures n <= MAX_INT64 ==> ParseInt("+" + Decimal(n)).value == n
    ensures ParseInt("-" + Decimal(n)).Some? <==> n <= MAX_INT64 + 1
    ensures n <= MAX_INT64 + 1 ==> ParseInt("-" + Decimal(n)).value == 0 - n
  {
    DecimalIsDigits(n);
    ParsePrinted(n);
    SignedDigits('+', Decimal(n), n);
    SignedDigits('-', Decimal(n), n);
  }

  lemma SignedDigits(sign: char, digits: string, n: nat)
    requires (sign == '+' || sign == '-') && digits != "" && ParseDigits(digits) == Some(n)
    ensures var r := ParseInt([sign] + digits);
            && (r.Some? <==> if sign == '-' then n <= MAX_INT64 + 1 else n <= MAX_INT64)
            && (r.Some? ==> r.value == if sign == '-' then 0 - n else n)
  {
    assert ([sign] + digits)[1..] == digits;
  }

  /** What the check makes of any unit, white space and two numbers: only the unit bytes, in whatever case, is looked
      at further, and a number that does not fit in 64 bits is not held against the response. */
  lemma CheckOfAnyUnit(unit: string, gap: char, first: nat, last: nat, total: string, start: int, end: int)
    requires unit != "" && NoSpace(unit) && IsGap(gap) && NoSpace(total)
    ensures Mismatch(unit + [gap] + RangeSpec(first, last, total), start, end) <==>
            ToLower(unit) == "bytes" &&
            ((first <= MAX_INT64 && first != start) || (end >= 0 && last <= MAX_INT64 && !(start <= last <= end)))
  {
    var spec := RangeSpec(first, last, total);
    DecimalIsDigits(first);
    DecimalIsDigits(last);
    assert NoSpace(spec);
    FieldsOfTwoWords(unit, gap, spec);
    RangeSpecParts(first, last, total);
    CheckOfParts(unit + [gap] + spec, unit, spec, Decimal(first), Decimal(last), start, end);
    ParseIntRange(first);
    ParseIntRange(last);
  }

  lemma CheckOfParts(header: string, unit: string, spec: string, first: string, last: string, start: int, end: int)
    requires Fields(header) == [unit, spec] && header != "" && first != "" && '-' !in first
    requires var range := first + "-" + last; Index(spec, '/') == |range| && spec[..|range|] == range && Index(range, '-') == |first|
    ensures Mismatch(header, start, end) <==> ToLower(unit) == "bytes" && (WrongStart(first, start) || WrongEnd(last, start, end))
  {
    var range := first + "-" + last;
    assert range[..|first|] == first && range[|first| + 1..] == last;
  }

  lemma {:induction false} FieldsTakeChars(s: string, i: nat)
    requires i < |Fields(s)|
    ensures forall c | c in Fields(s)[i] :: c in s
  {
    if s != "" {
      assert s == [s[0]] + s[1..];
      var rest := Fields(s[1..]);
      if IsSpace(s[0]) {
        FieldsTakeChars(s[1..], i);
      } else if |s| == 1 || IsSpace(s[1]) {
        if i > 0 { FieldsTakeChars(s[1..], i - 1); }
      } else if rest != [] {
        FieldsTakeChars(s[1..], i);
      }
    }
  }

  /** A header without a slash or without a hyphen is not held against the response. */
  lemma MalformedIsKept(header: string, start: int, end: int)
    requires '/' !in header || '-' !in header
    ensures !Mismatch(header, start, end)
  {
    var parts := Fields(header);
    if |parts| == 2 {
      FieldsTakeChars(header, 1);
    }
  }
}
