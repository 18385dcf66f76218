/** Segment file names and directory listings (pkg/wal/segment.go). */
module Names {
  import opened Wrappers

  const SEGMENT_PREFIX := "seg-"
  const SEGMENT_EXT := ".wal"
  const MAX_UINT64 := 0xFFFF_FFFF_FFFF_FFFF

  predicate IsDigit(c: char) {
    '0' <= c <= '9'
  }

  function DigitChar(d: nat): (c: char)
    requires d < 10
    ensures IsDigit(c)
  {
    '0' + d as char
  }

  function DigitValue(c: char): (d: nat)
    requires IsDigit(c)
    ensures d < 10
  {
    (c - '0') as nat
  }

  predicate AllDigits(s: string) {
    forall i :: 0 <= i < |s| ==> IsDigit(s[i])
  }

  /** The decimal numeral of n, without leading zeros. */
  function Decimal(n: nat): (s: string)
    ensures |s| > 0 && AllDigits(s)
  {
    if n < 10 then [DigitChar(n)] else Decimal(n / 10) + [DigitChar(n % 10)]
  }

  function Zeros(n: nat): (s: string)
    ensures |s| == n && AllDigits(s)
  {
    seq(n, _ => '0')
  }

  /** The %06d format: at least six digits, padded with zeros. */
  function SixDigits(n: nat): (s: string)
    ensures |s| >= 6 && AllDigits(s)
  {
    var s := Decimal(n);
    if |s| < 6 then Zeros(6 - |s|) + s else s
  }

  function SegmentName(base: nat): string {
    SEGMENT_PREFIX + SixDigits(base) + SEGMENT_EXT
  }

  function NumeralValue(s: string): nat
    requires AllDigits(s)
  {
    if |s| == 0 then 0 else 10 * NumeralValue(s[..|s| - 1]) + DigitValue(s[|s| - 1])
  }

  /** Decimal parsing into 64 bits: no sign, no separators, no overflow. */
  function ParseUint(s: string): Option<nat> {
    if |s| == 0 || !AllDigits(s) || NumeralValue(s) > MAX_UINT64 then None else Some(NumeralValue(s))
  }

  predicate HasPrefix(s: string, p: string) {
    |p| <= |s| && s[..|p|] == p
  }

  predicate HasSuffix(s: string, p: string) {
    |p| <= |s| && s[|s| - |p|..] == p
  }

  function TrimSuffix(s: string, p: string): string {
    if HasSuffix(s, p) then s[..|s| - |p|] else s
  }

  function ParseSegmentName(name: string): Option<nat> {
    if !HasPrefix(name, SEGMENT_PREFIX) || !HasSuffix(name, SEGMENT_EXT) then None
    else ParseUint(TrimSuffix(name[|SEGMENT_PREFIX|..], SEGMENT_EXT))
  }

  // ---------- names and numbers ----------

  lemma {:induction false} DecimalValue(n: nat)
    ensures NumeralValue(Decimal(n)) == n
  {
    if n < 10 {
      assert Decimal(n)[..0] == "";
    } else {
      DecimalValue(n / 10);
      assert Decimal(n)[..|Decimal(n)| - 1] == Decimal(n / 10);
    }
  }

  lemma {:induction false} LeadingZeros(k: nat, s: string)
    requires AllDigits(s)
    ensures AllDigits(Zeros(k) + s) && NumeralValue(Zeros(k) + s) == NumeralValue(s)
    decreases k + |s|
  {
    var z := Zeros(k) + s;
    if |s| > 0 {
      assert z[..|z| - 1] == Zeros(k) + s[..|s| - 1];
      LeadingZeros(k, s[..|s| - 1]);
    } else if k > 0 {
      assert z[..|z| - 1] == Zeros(k - 1) + s;
      LeadingZeros(k - 1, s);
    }
  }

  lemma SixDigitsValue(n: nat)
    ensures NumeralValue(SixDigits(n)) == n
  {
    DecimalValue(n);
    LeadingZeros(if |Decimal(n)| < 6 then 6 - |Decimal(n)| else 0, Decimal(n));
  }

  /** Below a million six digits, and from there on as many as the number has, without a zero first. */
  lemma SixDigitsLong(n: nat)
    ensures n < 1000000 ==> |SixDigits(n)| == 6
    ensures n >= 1000000 ==> |SixDigits(n)| > 6 && SixDigits(n)[0] != '0'
  {
    DecimalLong(n, 6);
    if n > 0 {
      DecimalFirst(n);
    }
  }

  function PowerOfTen(k: nat): nat {
    if k == 0 then 1 else 10 * PowerOfTen(k - 1)
  }

  lemma {:induction false} DecimalLong(n: nat, k: nat)
    requires k > 0
    ensures |Decimal(n)| <= k <==> n < PowerOfTen(k)
    decreases k
  {
    if k == 1 {
      assert n >= 10 ==> |Decimal(n / 10)| > 0;
    } else if n >= 10 {
      DecimalLong(n / 10, k - 1);
    } else {
      AtLeastTen(k);
    }
  }

  lemma AtLeastTen(k: nat)
    requires k > 0
    ensures PowerOfTen(k) >= 10
  {
  }

  lemma {:induction false} DecimalFirst(n: nat)
    requires n > 0
    ensures Decimal(n)[0] != '0'
  {
    if n >= 10 {
      DecimalFirst(n / 10);
    }
  }

  /** A segment's name gives back its base exactly when the base is a 64-bit number. */
  lemma NameRoundTrip(base: nat)
    ensures ParseSegmentName(SegmentName(base)) == Some(base) <==> base < 0x1_0000_0000_0000_0000
  {
    var name, digits := SegmentName(base), SixDigits(base);
    SixDigitsValue(base);
    assert name[..4] == SEGMENT_PREFIX;
    assert name[|name| - 4..] == SEGMENT_EXT;
    assert name[4..] == digits + SEGMENT_EXT;
    assert (digits + SEGMENT_EXT)[|digits|..] == SEGMENT_EXT;
    assert (digits + SEGMENT_EXT)[..|digits|] == digits;
  }

  lemma NamesDiffer(a: nat, b: nat)
    requires a < 0x1_0000_0000_0000_0000 && b < 0x1_0000_0000_0000_0000 && SegmentName(a) == SegmentName(b)
    ensures a == b
  {
    NameRoundTrip(a);
    NameRoundTrip(b);
  }

  lemma NameExamples()
    ensures SegmentName(0) == "seg-000000.wal" && SegmentName(1234567) == "seg-1234567.wal"
  {
    hide Decimal;
    assert Zeros(5) == "00000";
    SomeDecimals();
  }

  lemma SomeDecimals()
    ensures Decimal(0) == "0" && Decimal(1234567) == "1234567"
  {
    assert Decimal(1234) == "1234";
  }

  /** Exactly the names with the prefix, the extension, and a decimal numeral of at most 64 bits between
      them are parsed, and as that number. */
  lemma ParsesExactly(name: string, n: nat)
    ensures ParseSegmentName(name) == Some(n) <==>
            n < 0x1_0000_0000_0000_0000
            && exists digits :: name == "seg-" + digits + ".wal" && digits != "" && AllDigits(digits)
                                && NumeralValue(digits) == n
  {
    if ParseSegmentName(name) == Some(n) {
      var rest := name[4..];
      assert name == name[..4] + rest;
      NoOverlap(name);
      var digits := rest[..|rest| - 4];
      assert rest[|rest| - 4..] == name[|name| - 4..];
      assert rest == digits + ".wal";
      assert name == "seg-" + digits + ".wal";
    }
    if digits :| name == "seg-" + digits + ".wal" && digits != "" && AllDigits(digits) && NumeralValue(digits) == n {
      var rest := digits + ".wal";
      assert name[..4] == "seg-" && name[4..] == rest && name[|name| - 4..] == ".wal";
      assert rest[|rest| - 4..] == ".wal" && rest[..|rest| - 4] == digits;
    }
  }

  /** The prefix and the extension do not overlap in a name that is parsed. */
  lemma NoOverlap(name: string)
    requires ParseSegmentName(name).Some?
    ensures |name| >= 8 && HasSuffix(name[4..], SEGMENT_EXT)
  {
    var rest := name[4..];
    if HasSuffix(rest, SEGMENT_EXT) {
      assert rest[|rest| - 4..] == name[|name| - 4..];
    }
  }

  /** Parsing accepts names that no segment has: such a file is listed, but its path is another's. */
  lemma ForeignName()
    ensures ParseSegmentName("seg-5.wal") == Some(5) && SegmentName(5) != "seg-5.wal"
  {
    var name := "seg-5.wal";
    assert name[4..] == "5.wal";
    assert "5.wal"[..1] == "5" && "5.wal"[1..] == ".wal";
    assert "5"[..0] == "";
    assert |SegmentName(5)| >= 14;
  }

  // ---------- listings ----------

  ghost predicate Ascending(s: seq<nat>) {
    forall i, j :: 0 <= i < j < |s| ==> s[i] < s[j]
  }

  function Largest(s: set<nat>): (m: nat)
    requires s != {}
    ensures m in s && forall n :: n in s ==> n <= m
  {
    LargestExists(s);
    var m :| m in s && forall n :: n in s ==> n <= m;
    m
  }

  lemma {:induction false} LargestExists(s: set<nat>)
    requires s != {}
    ensures exists m :: m in s && forall n :: n in s ==> n <= m
  {
    var x :| x in s;
    var rest := s - {x};
    if rest == {} {
      assert s == {x};
    } else {
      LargestExists(rest);
      var m :| m in rest && forall n :: n in rest ==> n <= m;
      var l := if x < m then m else x;
      forall n | n in s
        ensures n <= l
      {
        assert n == x || n in rest;
      }
      assert l in s;
    }
  }

  /** The elements of a set of numbers, in ascending order. */
  function Sorted(s: set<nat>): (r: seq<nat>)
    ensures Ascending(r)
    ensures forall n :: n in r <==> n in s
  {
    if s == {} then [] else Sorted(s - {Largest(s)}) + [Largest(s)]
  }

  lemma {:induction false} AscendingUnique(a: seq<nat>, b: seq<nat>)
    requires Ascending(a) && Ascending(b) && forall n :: n in a <==> n in b
    ensures a == b
    decreases |a|
  {
    assert |b| > 0 ==> b[0] in a;
    if |a| > 0 {
      assert a[0] in b;
      SameLast(a, b);
      var n := a[|a| - 1];
      var a', b' := a[..|a| - 1], b[..|b| - 1];
      WithoutLast(a);
      WithoutLast(b);
      forall m
        ensures m in a' <==> m in b'
      {
        assert m in a <==> m in b;
      }
      AscendingUnique(a', b');
      assert a == a' + [n] && b == b' + [n];
    }
  }

  lemma SameLast(a: seq<nat>, b: seq<nat>)
    requires Ascending(a) && Ascending(b) && |a| > 0 && |b| > 0 && forall n :: n in a <==> n in b
    ensures a[|a| - 1] == b[|b| - 1]
  {
    assert a[|a| - 1] in b && b[|b| - 1] in a;
  }

  lemma WithoutLast(s: seq<nat>)
    requires Ascending(s) && |s| > 0
    ensures Ascending(s[..|s| - 1]) && forall n :: n in s[..|s| - 1] <==> n in s && n != s[|s| - 1]
  {
    assert s == s[..|s| - 1] + [s[|s| - 1]];
  }

  lemma SameMembers(a: seq<nat>, s: set<nat>)
    requires Ascending(a) && forall n :: n in a <==> n in s
    ensures a == Sorted(s)
  {
    AscendingUnique(a, Sorted(s));
  }

  /** A directory entry. */
  datatype Entry = Entry(name: string, isDir: bool)

  /** The number of an entry that is a file and named like a segment. */
  function Number(e: Entry): Option<nat> {
    if e.isDir then None else ParseSegmentName(e.name)
  }

  /** The numbers of the entries, in directory order. */
  function Parsed(entries: seq<Entry>): seq<nat> {
    if |entries| == 0 then []
    else
      var ns := Parsed(entries[..|entries| - 1]);
      match Number(entries[|entries| - 1])
      case None => ns
      case Some(n) => ns + [n]
  }

  ghost predicate NonDescending(s: seq<nat>) {
    forall i, j :: 0 <= i < j < |s| ==> s[i] <= s[j]
  }

  /** Stands for the library's sort. */
  function Sort(s: seq<nat>): (r: seq<nat>)
    ensures NonDescending(r) && multiset(r) == multiset(s)
  {
    if |s| == 0 then []
    else
      assert s == s[..|s| - 1] + [s[|s| - 1]];
      Insert(Sort(s[..|s| - 1]), s[|s| - 1])
  }

  function Insert(s: seq<nat>, n: nat): (r: seq<nat>)
    requires NonDescending(s)
    ensures NonDescending(r) && multiset(r) == multiset(s) + multiset{n}
  {
    if |s| == 0 || s[|s| - 1] <= n then s + [n]
    else
      var front, last := s[..|s| - 1], s[|s| - 1];
      assert s == front + [last];
      var r := Insert(front, n);
      InsertedBelow(front, n, last, r);
      r + [last]
  }

  /** Behind the numbers below last, and n, comes last. */
  lemma InsertedBelow(front: seq<nat>, n: nat, last: nat, r: seq<nat>)
    requires NonDescending(front + [last]) && n < last
    requires NonDescending(r) && multiset(r) == multiset(front) + multiset{n}
    ensures NonDescending(r + [last])
  {
    forall m | m in r
      ensures m <= last
    {
      assert m in multiset(r);
      if m != n {
        assert m in front;
        var i :| 0 <= i < |front| && front[i] == m;
        assert (front + [last])[i] <= (front + [last])[|front|];
      }
    }
    forall i | 0 <= i < |r|
      ensures r[i] <= last
    {
      assert r[i] in r;
    }
  }

  method ListSegments(entries: seq<Entry>) returns (bases: seq<nat>)
    ensures NonDescending(bases) && multiset(bases) == multiset(Parsed(entries))
  {
    bases := [];
    for i := 0 to |entries|
      invariant bases == Parsed(entries[..i])
    {
      assert entries[..i + 1][..i] == entries[..i];
      var e := entries[i];
      if !e.isDir {
        var n := ParseSegmentName(e.name);
        if n.Some? {
          bases := bases + [n.value];
        }
      }
    }
    assert entries[..|entries|] == entries;
    bases := Sort(bases);
  }

  /** A directory does not count, whatever its name. */
  lemma {:induction false} DirectoriesSkipped(x: seq<Entry>, name: string, y: seq<Entry>)
    ensures Parsed(x + [Entry(name, true)] + y) == Parsed(x + y)
    decreases |y|
  {
    hide ParseSegmentName;
    var z := x + [Entry(name, true)] + y;
    if |y| == 0 {
      assert z[..|z| - 1] == x && x + y == x;
    } else {
      var front := y[..|y| - 1];
      assert z[..|z| - 1] == x + [Entry(name, true)] + front && (x + y)[..|x + y| - 1] == x + front;
      DirectoriesSkipped(x, name, front);
    }
  }

  /** No two entries have the same number, and the numbers are the given bases. */
  ghost predicate Numbered(entries: seq<Entry>, bases: set<nat>) {
    DifferentNumbers(entries) && forall n :: n in bases <==> HasNumber(entries, n)
  }

  ghost predicate DifferentNumbers(entries: seq<Entry>) {
    forall i, j :: 0 <= i < j < |entries| && Number(entries[i]).Some? ==> Number(entries[i]) != Number(entries[j])
  }

  ghost predicate HasNumber(entries: seq<Entry>, n: nat) {
    exists e :: e in entries && Number(e) == Some(n)
  }

  ghost predicate Distinct(s: seq<nat>) {
    forall i, j :: 0 <= i < j < |s| ==> s[i] != s[j]
  }

  /** Whatever the order of the directory, listing gives the bases, strictly ascending, exactly when
      every base is the number of just one entry, and no entry has another number. */
  lemma ListedExactly(entries: seq<Entry>, bases: set<nat>, listed: seq<nat>)
    requires NonDescending(listed) && multiset(listed) == multiset(Parsed(entries))
    ensures listed == Sorted(bases) <==> Numbered(entries, bases)
  {
    hide Number;
    var ps := Parsed(entries);
    ParsedMembers(entries);
    ParsedDistinct(entries);
    SameDistinct(listed, ps);
    assert forall n :: n in listed <==> n in ps by {
      assert forall n :: n in listed <==> n in multiset(listed);
      assert forall n :: n in ps <==> n in multiset(ps);
    }
    if Numbered(entries, bases) {
      SameMembers(listed, bases);
    }
  }

  lemma {:induction false} ParsedMembers(entries: seq<Entry>)
    ensures forall n :: n in Parsed(entries) <==> HasNumber(entries, n)
  {
    hide Number;
    if |entries| > 0 {
      var front, e := entries[..|entries| - 1], entries[|entries| - 1];
      ParsedMembers(front);
      assert entries == front + [e];
      forall n: nat
        ensures HasNumber(entries, n) <==> HasNumber(front, n) || Number(e) == Some(n)
      {
        assert e in entries;
      }
    }
  }

  lemma {:induction false} ParsedDistinct(entries: seq<Entry>)
    ensures Distinct(Parsed(entries)) <==> DifferentNumbers(entries)
  {
    hide Number;
    if |entries| > 0 {
      var front, e := entries[..|entries| - 1], entries[|entries| - 1];
      ParsedDistinct(front);
      ParsedMembers(front);
      LastDiffers(front, e);
      assert entries == front + [e];
      if Number(e).Some? {
        LastDistinct(Parsed(front), Number(e).value);
      }
    }
  }

  lemma LastDistinct(s: seq<nat>, n: nat)
    ensures Distinct(s + [n]) <==> Distinct(s) && n !in s
  {
    var all := s + [n];
    if Distinct(all) {
      forall m | m in s
        ensures m != n
      {
        var i :| 0 <= i < |s| && s[i] == m;
        assert all[i] != all[|s|];
      }
      assert forall i :: 0 <= i < |s| ==> all[i] == s[i];
    }
  }

  lemma LastDiffers(front: seq<Entry>, e: Entry)
    ensures DifferentNumbers(front + [e]) <==>
            DifferentNumbers(front) && (Number(e).Some? ==> !HasNumber(front, Number(e).value))
  {
    hide Number;
    var all := front + [e];
    if DifferentNumbers(all) {
      assert forall i :: 0 <= i < |front| ==> all[i] == front[i];
      forall x | x in front && Number(x).Some?
        ensures Number(x) != Number(e)
      {
        var i :| 0 <= i < |front| && front[i] == x;
        assert Number(all[i]) != Number(all[|front|]);
      }
    }
    if DifferentNumbers(front) && (Number(e).Some? ==> !HasNumber(front, Number(e).value)) {
      forall i, j | 0 <= i < j < |all| && Number(all[i]).Some?
        ensures Number(all[i]) != Number(all[j])
      {
        assert all[i] in front;
      }
    }
  }

  /** Two arrangements of the same numbers both have them distinct, or neither has. */
  lemma SameDistinct(a: seq<nat>, b: seq<nat>)
    requires NonDescending(a) && multiset(a) == multiset(b)
    ensures Distinct(a) <==> Ascending(a)
    ensures Distinct(a) <==> Distinct(b)
  {
    if Distinct(a) && !Distinct(b) {
      var i, j :| 0 <= i < j < |b| && b[i] == b[j];
      TwiceInMultiset(b, i, j);
      OnceInMultiset(a, b[i]);
    }
    if Distinct(b) && !Distinct(a) {
      var i, j :| 0 <= i < j < |a| && a[i] == a[j];
      TwiceInMultiset(a, i, j);
      OnceInMultiset(b, a[i]);
    }
  }

  /** The entries are the segment files with the given bases, once each, among other files. */
  ghost predicate Lists(entries: seq<Entry>, bases: set<nat>) {
    && (forall i, j :: 0 <= i < j < |entries| ==> entries[i].name != entries[j].name)
    && (forall e :: e in entries && Number(e).Some? ==>
          Number(e).value in bases && e.name == SegmentName(Number(e).value))
    && (forall b :: b in bases ==> b <= MAX_UINT64 && Entry(SegmentName(b), false) in entries)
  }

  /** So in a directory of segment files among others the listing is exactly their bases. */
  lemma ListingExact(entries: seq<Entry>, bases: set<nat>, listed: seq<nat>)
    requires Lists(entries, bases)
    requires NonDescending(listed) && multiset(listed) == multiset(Parsed(entries))
    ensures listed == Sorted(bases)
  {
    hide SegmentName, ParseSegmentName;
    ListedExactly(entries, bases, listed);
    forall b | b in bases
      ensures HasNumber(entries, b)
    {
      NameRoundTrip(b);
      assert Number(Entry(SegmentName(b), false)) == Some(b);
    }
    forall i, j | 0 <= i < j < |entries| && Number(entries[i]).Some?
      ensures Number(entries[i]) != Number(entries[j])
    {
      assert entries[i] in entries && entries[j] in entries;
    }
  }

  /** A foreign name stands beside a segment's: then the listing has its number twice. */
  lemma ForeignNameBreaksListing(entries: seq<Entry>, bases: set<nat>, listed: seq<nat>)
    requires NonDescending(listed) && multiset(listed) == multiset(Parsed(entries))
    requires Entry("seg-5.wal", false) in entries && Entry(SegmentName(5), false) in entries
    ensures listed != Sorted(bases)
  {
    hide SegmentName, ParseSegmentName;
    ForeignName();
    NameRoundTrip(5);
    ListedExactly(entries, bases, listed);
    var i :| 0 <= i < |entries| && entries[i] == Entry("seg-5.wal", false);
    var j :| 0 <= j < |entries| && entries[j] == Entry(SegmentName(5), false);
    assert Number(entries[i]) == Number(entries[j]) == Some(5);
  }

  lemma TwiceInMultiset(s: seq<nat>, i: nat, j: nat)
    requires i < j < |s| && s[i] == s[j]
    ensures multiset(s)[s[i]] >= 2
  {
    assert s == s[..j] + s[j..];
    assert s[i] in s[..j] && s[i] in s[j..];
  }

  lemma {:induction false} OnceInMultiset(s: seq<nat>, n: nat)
    requires forall i, j :: 0 <= i < j < |s| ==> s[i] != s[j]
    ensures multiset(s)[n] <= 1
  {
    if |s| > 0 {
      var front := s[..|s| - 1];
      assert s == front + [s[|s| - 1]];
      OnceInMultiset(front, n);
      assert s[|s| - 1] !in multiset(front);
    }
  }
}
