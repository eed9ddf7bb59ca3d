/** Backup names and retention: the order of the names stands in for the order of time. */
module Backups {
  import opened Decimals

  // ----- Lexicographic order, as std::string compares -----

  predicate Less(a: string, b: string) {
    b != "" && (a == "" || a[0] < b[0] || (a[0] == b[0] && Less(a[1..], b[1..])))
  }

  lemma {:induction false} LessIrreflexive(a: string)
    ensures !Less(a, a)
  {
    if a != "" {
      LessIrreflexive(a[1..]);
    }
  }

  lemma {:induction false} LessTransitive(a: string, b: string, c: string)
    requires Less(a, b) && Less(b, c)
    ensures Less(a, c)
  {
    if a != "" && a[0] == b[0] == c[0] {
      LessTransitive(a[1..], b[1..], c[1..]);
    }
  }

  lemma {:induction false} LessTotal(a: string, b: string)
    ensures a == b || Less(a, b) || Less(b, a)
  {
    if a != "" && b != "" && a[0] == b[0] {
      LessTotal(a[1..], b[1..]);
      assert a == [a[0]] + a[1..] && b == [b[0]] + b[1..];
    }
  }

  /** Blocks of equal length decide before what follows them. */
  lemma {:induction false} LessByBlocks(a: string, b: string, x: string, y: string)
    requires |a| == |b|
    ensures Less(a + x, b + y) <==> Less(a, b) || (a == b && Less(x, y))
  {
    if a == "" {
      assert a + x == x && b + y == y;
    } else {
      assert (a + x)[1..] == a[1..] + x && (b + y)[1..] == b[1..] + y;
      LessByBlocks(a[1..], b[1..], x, y);
      assert a == b <==> a[0] == b[0] && a[1..] == b[1..] by {
        assert a == [a[0]] + a[1..] && b == [b[0]] + b[1..];
      }
    }
  }

  // ----- Numbers as text -----

  /** Decimal with w digits, as the two-digit fields print. */
  function Fixed(n: nat, w: nat): (s: string)
    ensures |s| == w && AllDigits(s)
  {
    if w == 0 then "" else Fixed(n / 10, w - 1) + [Digit(n % 10)]
  }

  lemma OneDigit(a: nat, b: nat)
    requires a < 10 && b < 10
    ensures Less([Digit(a)], [Digit(b)]) <==> a < b
    ensures [Digit(a)] == [Digit(b)] <==> a == b
  {
    var x, y := [Digit(a)], [Digit(b)];
    assert x[1..] == "" && y[1..] == "";
    assert x[0] == Digit(a) && y[0] == Digit(b);
  }

  lemma {:induction false} FixedOrder(a: nat, b: nat, w: nat)
    requires a < Pow10(w) && b < Pow10(w)
    ensures Less(Fixed(a, w), Fixed(b, w)) <==> a < b
    ensures Fixed(a, w) == Fixed(b, w) <==> a == b
  {
    if w > 0 {
      var p, q := Fixed(a / 10, w - 1), Fixed(b / 10, w - 1);
      FixedOrder(a / 10, b / 10, w - 1);
      OneDigit(a % 10, b % 10);
      LessByBlocks(p, q, [Digit(a % 10)], [Digit(b % 10)]);
      assert Fixed(a, w)[..w - 1] == p && Fixed(b, w)[..w - 1] == q;
      assert Fixed(a, w)[w - 1..] == [Digit(a % 10)] && Fixed(b, w)[w - 1..] == [Digit(b % 10)];
    }
  }

  // ----- Names -----

  /** The fields of the local calendar time. */
  datatype Stamp = Stamp(year: nat, month: nat, day: nat, hour: nat, minute: nat, second: nat)

  predicate ValidStamp(t: Stamp) {
    1 <= t.month <= 12 && 1 <= t.day <= 31 && t.hour <= 23 && t.minute <= 59 && t.second <= 60
  }

  predicate Before(a: Stamp, b: Stamp) {
    a.year < b.year || (a.year == b.year && (
    a.month < b.month || (a.month == b.month && (
    a.day < b.day || (a.day == b.day && (
    a.hour < b.hour || (a.hour == b.hour && (
    a.minute < b.minute || (a.minute == b.minute && a.second < b.second)))))))))
  }

  function TimeText(t: Stamp): (s: string) {
    Fixed(t.hour, 2) + (Fixed(t.minute, 2) + Fixed(t.second, 2))
  }

  function DayText(t: Stamp): (s: string) {
    Fixed(t.month, 2) + (Fixed(t.day, 2) + ("_" + TimeText(t)))
  }

  /** The path of a backup: the directory, then backup_YYYYmmdd_HHMMSS. The year is printed unpadded. */
  function PathOf(t: Stamp): string {
    "backups/backup_" + (Decimal(t.year) + DayText(t))
  }

  lemma Hundred()
    ensures Pow10(2) == 100 && Pow10(4) == 10000
  {
    assert Pow10(1) == 10 && Pow10(2) == 10 * Pow10(1) && Pow10(3) == 10 * Pow10(2);
  }

  lemma {:induction false} ValueOfFixed(n: nat, w: nat)
    requires n < Pow10(w)
    ensures Value(Fixed(n, w)) == n
  {
    if w > 0 {
      ValueOfFixed(n / 10, w - 1);
      assert Fixed(n, w)[..w - 1] == Fixed(n / 10, w - 1);
    }
  }

  lemma TwoDigitField(n: nat)
    requires n < 100
    ensures Value(Fixed(n, 2)) == n
  {
    Hundred();
    ValueOfFixed(n, 2);
  }

  /** What a name says: behind the prefix the year, without padding, then month and day, an underscore, and
      hour, minute and second, all in two digits. */
  lemma NameSaysTheTime(t: Stamp)
    requires ValidStamp(t)
    ensures var y, m, d := Decimal(t.year), Fixed(t.month, 2), Fixed(t.day, 2);
      PathOf(t) == "backups/backup_" + (y + (m + (d + ("_" + (Fixed(t.hour, 2) + (Fixed(t.minute, 2) + Fixed(t.second, 2)))))))
    ensures Value(Decimal(t.year)) == t.year && (Decimal(t.year)[0] == '0' ==> t.year == 0)
    ensures Value(Fixed(t.month, 2)) == t.month && Value(Fixed(t.day, 2)) == t.day
    ensures Value(Fixed(t.hour, 2)) == t.hour && Value(Fixed(t.minute, 2)) == t.minute
    ensures Value(Fixed(t.second, 2)) == t.second
  {
    ValueOfDecimal(t.year);
    NoLeadingZero(t.year);
    TwoDigitField(t.month);
    TwoDigitField(t.day);
    TwoDigitField(t.hour);
    TwoDigitField(t.minute);
    TwoDigitField(t.second);
  }

  lemma {:induction false} SamePrefix(p: string, x: string, y: string)
    ensures Less(p + x, p + y) <==> Less(x, y)
    ensures p + x == p + y <==> x == y
  {
    LessIrreflexive(p);
    LessByBlocks(p, p, x, y);
    assert (p + x)[|p|..] == x && (p + y)[|p|..] == y;
  }

  /** One fixed-width field in front of text. */
  lemma FieldOrder(a: nat, b: nat, w: nat, x: string, y: string)
    requires a < Pow10(w) && b < Pow10(w)
    ensures Less(Fixed(a, w) + x, Fixed(b, w) + y) <==> a < b || (a == b && Less(x, y))
    ensures Fixed(a, w) + x == Fixed(b, w) + y <==> a == b && x == y
  {
    FixedOrder(a, b, w);
    LessByBlocks(Fixed(a, w), Fixed(b, w), x, y);
    assert (Fixed(a, w) + x)[..w] == Fixed(a, w) && (Fixed(b, w) + y)[..w] == Fixed(b, w);
    assert (Fixed(a, w) + x)[w..] == x && (Fixed(b, w) + y)[w..] == y;
  }

  lemma TimeOrder(a: Stamp, b: Stamp)
    requires ValidStamp(a) && ValidStamp(b)
    ensures Less(TimeText(a), TimeText(b)) <==>
            a.hour < b.hour || (a.hour == b.hour && (a.minute < b.minute || (a.minute == b.minute && a.second < b.second)))
    ensures TimeText(a) == TimeText(b) <==> a.hour == b.hour && a.minute == b.minute && a.second == b.second
  {
    Hundred();
    FixedOrder(a.second, b.second, 2);
    FieldOrder(a.minute, b.minute, 2, Fixed(a.second, 2), Fixed(b.second, 2));
    FieldOrder(a.hour, b.hour, 2, Fixed(a.minute, 2) + Fixed(a.second, 2), Fixed(b.minute, 2) + Fixed(b.second, 2));
  }

  lemma DayOrder(a: Stamp, b: Stamp)
    requires ValidStamp(a) && ValidStamp(b)
    ensures Less(DayText(a), DayText(b)) <==> Before(a.(year := 0), b.(year := 0))
    ensures DayText(a) == DayText(b) <==> a.(year := 0) == b.(year := 0)
  {
    Hundred();
    TimeOrder(a, b);
    SamePrefix("_", TimeText(a), TimeText(b));
    var x, y := "_" + TimeText(a), "_" + TimeText(b);
    FieldOrder(a.day, b.day, 2, x, y);
    FieldOrder(a.month, b.month, 2, Fixed(a.day, 2) + x, Fixed(b.day, 2) + y);
  }

  /** The date as the number its digits show. */
  function DateNumber(t: Stamp): nat {
    10000 * t.year + 100 * t.month + t.day
  }

  lemma {:induction false} DecimalWidth(n: nat)
    ensures Decimal(n) == Fixed(n, |Decimal(n)|) && n < Pow10(|Decimal(n)|)
  {
    if n < 10 {
      assert Fixed(n, 1) == Fixed(n / 10, 0) + [Digit(n % 10)];
      assert Pow10(1) == 10 * Pow10(0);
    } else {
      DecimalWidth(n / 10);
      assert |Decimal(n)| == |Decimal(n / 10)| + 1;
    }
  }

  lemma {:induction false} WidthGrows(a: nat, b: nat)
    requires a <= b
    ensures |Decimal(a)| <= |Decimal(b)|
  {
    if a >= 10 {
      WidthGrows(a / 10, b / 10);
    }
  }

  /** Two more digits. */
  lemma TwoDigits(n: nat, w: nat, d: nat)
    requires d < 100
    ensures Fixed(100 * n + d, w + 2) == Fixed(n, w) + Fixed(d, 2)
  {
    var x := 100 * n + d;
    assert Fixed(x, w + 2) == Fixed(x / 10, w + 1) + [Digit(x % 10)];
    assert Fixed(x / 10, w + 1) == Fixed(x / 10 / 10, w) + [Digit(x / 10 % 10)];
    assert Fixed(d, 2) == Fixed(d / 10, 1) + [Digit(d % 10)] && Fixed(d / 10, 1) == Fixed(d / 10 / 10, 0) + [Digit(d / 10 % 10)];
    assert x / 10 / 10 == n && x / 10 % 10 == d / 10 % 10 && x % 10 == d % 10;
  }

  lemma {:induction false} PowTwoMore(w: nat)
    ensures Pow10(w + 2) == 100 * Pow10(w)
  {
    assert Pow10(w + 2) == 10 * Pow10(w + 1);
  }

  lemma DateText(t: Stamp)
    requires ValidStamp(t)
    ensures var w := |Decimal(t.year)|;
      && Decimal(t.year) + Fixed(t.month, 2) + Fixed(t.day, 2) == Fixed(DateNumber(t), w + 4)
      && DateNumber(t) < Pow10(w + 4)
  {
    var w := |Decimal(t.year)|;
    DecimalWidth(t.year);
    TwoDigits(t.year, w, t.month);
    TwoDigits(100 * t.year + t.month, w + 2, t.day);
    PowTwoMore(w);
    PowTwoMore(w + 2);
    assert 100 * (100 * t.year + t.month) + t.day == DateNumber(t);
  }

  lemma Regroup(a: string, b: string, c: string, d: string)
    ensures a + (b + (c + d)) == a + b + c + d
  {
  }

  /** A name is its date as one number, then the time behind an underscore. */
  lemma NameText(t: Stamp)
    requires ValidStamp(t)
    ensures var w := |Decimal(t.year)|;
      Decimal(t.year) + DayText(t) == Fixed(DateNumber(t), w + 4) + ("_" + TimeText(t)) && DateNumber(t) < Pow10(w + 4)
  {
    DateText(t);
    Regroup(Decimal(t.year), Fixed(t.month, 2), Fixed(t.day, 2), "_" + TimeText(t));
  }

  /** n without its last digits. */
  function Cut(n: nat, digits: nat): nat {
    if digits == 0 then n else Cut(n / 10, digits - 1)
  }

  lemma {:induction false} FixedPrefix(n: nat, w: nat, cut: nat)
    requires cut > 0
    ensures Fixed(n, w + cut)[..w] == Fixed(Cut(n, cut), w) && '0' <= Fixed(n, w + cut)[w] <= '9'
    decreases cut
  {
    assert Fixed(n, w + cut) == Fixed(n / 10, w + cut - 1) + [Digit(n % 10)];
    if cut > 1 {
      FixedPrefix(n / 10, w, cut - 1);
    }
  }

  lemma {:induction false} CutIsBelow(n: nat, w: nat, cut: nat)
    requires n < Pow10(w + cut)
    ensures Cut(n, cut) < Pow10(w)
    decreases cut
  {
    if cut > 0 {
      CutIsBelow(n / 10, w, cut - 1);
    }
  }

  lemma CutText(digits: string, w: nat, rest: string)
    requires w < |digits|
    ensures digits + rest == digits[..w] + (digits[w..] + rest) && (digits[w..] + rest)[0] == digits[w]
  {
  }

  /** The digits of a long date, cut to w of them. */
  lemma LongNameText(t: Stamp, w: nat, cut: nat) returns (back: string)
    requires ValidStamp(t) && w + cut == |Decimal(t.year)| + 4 && cut > 0
    ensures Decimal(t.year) + DayText(t) == Fixed(Cut(DateNumber(t), cut), w) + back && Cut(DateNumber(t), cut) < Pow10(w)
    ensures back != "" && '0' <= back[0] <= '9'
  {
    NameText(t);
    var digits, rest := Fixed(DateNumber(t), w + cut), "_" + TimeText(t);
    FixedPrefix(DateNumber(t), w, cut);
    CutIsBelow(DateNumber(t), w, cut);
    CutText(digits, w, rest);
    back := digits[w..] + rest;
  }

  /** A shorter date sorts before a longer one exactly if it is below the longer one cut to its length: on
      equal digits the underscore, which is above every digit, decides against it. */
  lemma ShorterYearFirstIff(a: Stamp, b: Stamp, cut: nat)
    requires ValidStamp(a) && ValidStamp(b) && |Decimal(b.year)| == |Decimal(a.year)| + cut && cut > 0
    ensures Less(PathOf(a), PathOf(b)) <==> DateNumber(a) < Cut(DateNumber(b), cut)
    ensures PathOf(a) != PathOf(b)
  {
    var w, rest := |Decimal(a.year)| + 4, "_" + TimeText(a);
    NameText(a);
    var back := LongNameText(b, w, cut);
    FixedOrder(DateNumber(a), Cut(DateNumber(b), cut), w);
    LessByBlocks(Fixed(DateNumber(a), w), Fixed(Cut(DateNumber(b), cut), w), rest, back);
    assert rest[0] == '_' && !Less(rest, back);
    assert (Fixed(DateNumber(a), w) + rest)[w] == '_' && (Fixed(Cut(DateNumber(b), cut), w) + back)[w] == back[0];
    SamePrefix("backups/backup_", Decimal(a.year) + DayText(a), Decimal(b.year) + DayText(b));
  }

  /** Whether two names sort as their times do, read off the two dates. */
  predicate NamesInOrder(a: Stamp, b: Stamp) {
    var w, v := |Decimal(a.year)|, |Decimal(b.year)|;
    if w < v then DateNumber(a) < Cut(DateNumber(b), v - w)
    else if v < w then DateNumber(b) < Cut(DateNumber(a), w - v)
    else true
  }

  lemma WiderIsLater(a: nat, b: nat)
    requires |Decimal(a)| < |Decimal(b)|
    ensures a < b
  {
    if b <= a {
      WidthGrows(b, a);
    }
  }

  lemma NotBoth(x: string, y: string)
    ensures !(Less(x, y) && Less(y, x))
  {
    if Less(x, y) && Less(y, x) {
      LessTransitive(x, y, x);
      LessIrreflexive(x);
    }
  }

  /** With years of equally many digits, four in practice, the order of the names is the order of time,
      and different times have different names. */
  lemma NamesFollowTime(a: Stamp, b: Stamp)
    requires ValidStamp(a) && ValidStamp(b) && |Decimal(a.year)| == |Decimal(b.year)|
    ensures Less(PathOf(a), PathOf(b)) <==> Before(a, b)
    ensures PathOf(a) == PathOf(b) <==> a == b
  {
    DecimalWidth(a.year);
    DecimalWidth(b.year);
    DayOrder(a, b);
    FieldOrder(a.year, b.year, |Decimal(a.year)|, DayText(a), DayText(b));
    SamePrefix("backups/backup_", Decimal(a.year) + DayText(a), Decimal(b.year) + DayText(b));
  }

  /** For all years: names sort as time does exactly if the years have equally many digits, or the date with
      the shorter year is below the other one cut to its length. */
  lemma NamesFollowTimeIff(a: Stamp, b: Stamp)
    requires ValidStamp(a) && ValidStamp(b)
    ensures (Less(PathOf(a), PathOf(b)) <==> Before(a, b)) <==> NamesInOrder(a, b)
    ensures PathOf(a) == PathOf(b) <==> a == b
  {
    var w, v := |Decimal(a.year)|, |Decimal(b.year)|;
    if w < v {
      ShorterYearFirstIff(a, b, v - w);
      WiderIsLater(a.year, b.year);
    } else if v < w {
      ShorterYearFirstIff(b, a, w - v);
      WiderIsLater(b.year, a.year);
      LessTotal(PathOf(a), PathOf(b));
      NotBoth(PathOf(a), PathOf(b));
    } else {
      NamesFollowTime(a, b);
    }
  }

  function LeadingDigit(n: nat): (d: nat)
    ensures d < 10
  {
    if n < 10 then n else LeadingDigit(n / 10)
  }

  lemma {:induction false} FirstCharacter(n: nat)
    ensures Decimal(n)[..1] == [Digit(LeadingDigit(n))]
  {
    if n >= 10 {
      FirstCharacter(n / 10);
    }
  }

  /** From the year 10000 on the names no longer sort by time: the extra digit comes too late. */
  lemma FiveDigitYearsSortFirst(a: Stamp, b: Stamp)
    requires 2000 <= a.year <= 9999 && 10000 <= b.year <= 19999
    ensures Before(a, b) && Less(PathOf(b), PathOf(a))
  {
    var x, y := Decimal(a.year) + DayText(a), Decimal(b.year) + DayText(b);
    FirstCharacter(a.year);
    FirstCharacter(b.year);
    assert LeadingDigit(a.year) == LeadingDigit(a.year / 10 / 10) == a.year / 10 / 10 / 10 >= 2;
    assert LeadingDigit(b.year) == LeadingDigit(b.year / 10 / 10) == LeadingDigit(b.year / 10 / 10 / 10) == 1;
    assert x[0] == Decimal(a.year)[..1][0] && y[0] == Decimal(b.year)[..1][0];
    SamePrefix("backups/backup_", y, x);
  }

  // ----- Which backups stay -----

  function Above(s: set<string>, x: string): set<string> {
    set y | y in s && Less(x, y)
  }

  /** The m greatest names: those with fewer than m above them. */
  function Keep(s: set<string>, m: nat): set<string> {
    set x | x in s && |Above(s, x)| < m
  }

  predicate Ascending(l: seq<string>) {
    forall i, j :: 0 <= i < j < |l| ==> Less(l[i], l[j])
  }

  function Elements(l: seq<string>): set<string> {
    set x | x in l
  }

  function Insert(l: seq<string>, x: string): seq<string> {
    if l == [] || Less(x, l[0]) then [x] + l else [l[0]] + Insert(l[1..], x)
  }

  lemma {:induction false} InsertAscending(l: seq<string>, x: string)
    requires Ascending(l) && x !in l
    ensures Ascending(Insert(l, x)) && Elements(Insert(l, x)) == Elements(l) + {x}
  {
    if l != [] {
      LessTotal(x, l[0]);
      if Less(x, l[0]) {
        forall j | 0 <= j < |l| ensures Less(x, l[j]) {
          if j > 0 {
            LessTransitive(x, l[0], l[j]);
          }
        }
      } else {
        InsertAscending(l[1..], x);
        var r := Insert(l[1..], x);
        forall j | 0 <= j < |r| ensures Less(l[0], r[j]) {
          assert r[j] in Elements(r);
        }
        assert Elements([l[0]] + r) == {l[0]} + Elements(r);
        assert Elements(l) == {l[0]} + Elements(l[1..]);
      }
    }
  }

  lemma {:induction false} CountElements(l: seq<string>)
    requires Ascending(l)
    ensures |Elements(l)| == |l|
  {
    if l != [] {
      CountElements(l[1..]);
      forall j | 0 < j < |l| ensures l[j] != l[0] {
        LessIrreflexive(l[0]);
      }
      assert Elements(l) == {l[0]} + Elements(l[1..]);
      assert l[0] !in l[1..];
    }
  }

  /** Every directory listing can be sorted. */
  lemma SortedListing(s: set<string>) returns (l: seq<string>)
    ensures Ascending(l) && Elements(l) == s && |l| == |s|
  {
    if s == {} {
      l := [];
    } else {
      var x :| x in s;
      var rest := SortedListing(s - {x});
      InsertAscending(rest, x);
      l := Insert(rest, x);
      CountElements(l);
      assert s == (s - {x}) + {x};
    }
  }

  /** In a sorted list the names above position i are those behind it. */
  lemma AboveInList(l: seq<string>, i: nat)
    requires Ascending(l) && i < |l|
    ensures |Above(Elements(l), l[i])| == |l| - 1 - i
  {
    forall y ensures y in Above(Elements(l), l[i]) <==> y in Elements(l[i + 1..]) {
      if y in Above(Elements(l), l[i]) {
        var j :| 0 <= j < |l| && l[j] == y;
        if j < i {
          LessTransitive(l[i], l[j], l[i]);
        }
        LessIrreflexive(l[i]);
        assert l[i + 1..][j - i - 1] == y;
      }
    }
    assert Above(Elements(l), l[i]) == Elements(l[i + 1..]);
    CountElements(l[i + 1..]);
  }

  /** So keeping is dropping all but the last m of the sorted list. */
  lemma KeepIsSuffix(l: seq<string>, m: nat)
    requires Ascending(l)
    ensures Keep(Elements(l), m) == Elements(l[if |l| <= m then 0 else |l| - m..])
  {
    var from := if |l| <= m then 0 else |l| - m;
    forall x ensures x in Keep(Elements(l), m) <==> x in Elements(l[from..]) {
      if x in Elements(l) {
        var i :| 0 <= i < |l| && l[i] == x;
        AboveInList(l, i);
        if i >= from {
          assert l[from..][i - from] == x;
        } else {
          forall j | from <= j < |l| ensures l[j] != l[i] {
            assert Less(l[i], l[j]);
            LessIrreflexive(l[i]);
          }
        }
      }
    }
  }

  lemma TailHas(l: seq<string>, from: nat)
    requires from <= |l|
    ensures forall q :: from <= q < |l| ==> l[q] in l[from..]
  {
    forall q | from <= q < |l| ensures l[q] in l[from..] {
      assert l[from..][q - from] == l[q];
    }
  }

  lemma LaterIsNewer(l: seq<string>, from: nat, x: string, y: string)
    requires Ascending(l) && from <= |l| && x in l[from..] && y in l && y !in l[from..]
    ensures Less(y, x)
  {
    var i :| 0 <= i < |l[from..]| && l[from..][i] == x;
    var j :| 0 <= j < |l| && l[j] == y;
    TailHas(l, from);
    assert l[from + i] == x;
  }

  /** Exactly min(n, m) names stay, and every one that stays is newer than every one that goes. */
  lemma KeepsTheNewest(s: set<string>, m: nat)
    ensures |Keep(s, m)| == if |s| <= m then |s| else m
    ensures forall x, y :: x in Keep(s, m) && y in s - Keep(s, m) ==> Less(y, x)
  {
    var l := SortedListing(s);
    KeepIsSuffix(l, m);
    var from := if |l| <= m then 0 else |l| - m;
    CountElements(l[from..]);
    forall x, y | x in Keep(s, m) && y in s - Keep(s, m) ensures Less(y, x) {
      LaterIsNewer(l, from, x, y);
    }
  }

  lemma Whole(a: set<string>, b: set<string>)
    requires a <= b && |a| == |b|
    ensures a == b
  {
    assert b == a + (b - a);
  }

  lemma AboveAdd(s: set<string>, x: string, z: string)
    ensures Above(s + {x}, z) == Above(s, z) + (if Less(z, x) then {x} else {})
  {
  }

  lemma Smaller(a: set<string>, b: set<string>)
    requires a <= b
    ensures |a| <= |b|
  {
    assert b == a + (b - a);
  }

  /** For a kept or new name, both sets have at least m names above it or the same ones. */
  lemma AboveAgrees(s: set<string>, x: string, z: string, m: nat)
    ensures var k := Keep(s, m);
            Above(k + {x}, z) == Above(s + {x}, z) || (|Above(k + {x}, z)| >= m && |Above(s + {x}, z)| >= m)
  {
    var k := Keep(s, m);
    AboveAdd(s, x, z);
    AboveAdd(k, x, z);
    if Above(k, z) != Above(s, z) {
      var w :| w in Above(s, z) && w !in Above(k, z);
      KeepsTheNewest(s, m);
      if |s| <= m {
        Whole(k, s);
      }
      forall y | y in k ensures y in Above(k + {x}, z) {
        LessTransitive(z, w, y);
      }
      Smaller(k, Above(k + {x}, z));
      Smaller(k, Above(s + {x}, z));
    }
  }

  /** Pruning early loses nothing: pruning, adding a name and pruning again keeps what one pruning of
      everything would. */
  lemma KeepAbsorbsKeep(s: set<string>, x: string, m: nat)
    ensures Keep(Keep(s, m) + {x}, m) == Keep(s + {x}, m)
  {
    forall z ensures z in Keep(Keep(s, m) + {x}, m) <==> z in Keep(s + {x}, m) {
      if z in Keep(s, m) + {x} {
        AboveAgrees(s, x, z, m);
      } else if z in s {
        Smaller(Above(s, z), Above(s + {x}, z));
      }
    }
  }

  lemma {:induction false} AtMost(l: seq<string>)
    ensures |Elements(l)| <= |l|
  {
    if l == [] {
      assert Elements(l) == {};
    } else {
      AtMost(l[1..]);
      assert Elements(l) == {l[0]} + Elements(l[1..]);
    }
  }

  lemma NoRepeat(l: seq<string>, i: nat)
    requires |Elements(l)| == |l| && i < |l|
    ensures l[i] !in l[..i]
  {
    if l[i] in l[..i] {
      assert Elements(l) == Elements(l[..i] + l[i + 1..]) by {
        assert forall x :: x in l <==> x in l[..i] + [l[i]] + l[i + 1..] by {
          assert l == l[..i] + [l[i]] + l[i + 1..];
        }
      }
      AtMost(l[..i] + l[i + 1..]);
    }
  }

  /** The backup just made, into any directory, survives exactly if fewer than m names there are above its
      own. It holds in every run, whatever the clock, the limit and other entries did before. */
  lemma JustMadeSurvivesIff(entries: set<string>, now: Stamp, m: nat)
    ensures PathOf(now) in Keep(entries + {PathOf(now)}, m) <==> |Above(entries, PathOf(now))| < m
  {
    LessIrreflexive(PathOf(now));
    AboveAdd(entries, PathOf(now), PathOf(now));
    assert Above(entries, PathOf(now)) + {} == Above(entries, PathOf(now));
  }

  class BackupManager {
    var entries: set<string>
    var maxBackups: nat

    constructor ()
      ensures entries == {} && maxBackups == 10
    {
      entries, maxBackups := {}, 10;
    }

    method SetMaxBackups(maxBackups: nat)
      modifies this`maxBackups
      ensures this.maxBackups == maxBackups
    {
      this.maxBackups := maxBackups;
    }

    /** The directory in whatever order the file system lists it. */
    method ListBackups() returns (backups: seq<string>)
      ensures Elements(backups) == entries && |backups| == |entries|
    {
      backups := [];
      var left := entries;
      while left != {}
        invariant left <= entries && Elements(backups) == entries - left && |backups| + |left| == |entries|
        decreases |left|
      {
        var x :| x in left;
        assert Elements(backups + [x]) == Elements(backups) + {x};
        backups, left := backups + [x], left - {x};
      }
    }

    static method Sort(backups: seq<string>) returns (sorted: seq<string>)
      requires |Elements(backups)| == |backups|
      ensures Ascending(sorted) && Elements(sorted) == Elements(backups)
    {
      sorted := [];
      for i := 0 to |backups|
        invariant Ascending(sorted) && Elements(sorted) == Elements(backups[..i])
      {
        NoRepeat(backups, i);
        assert backups[i] !in Elements(sorted);
        InsertAscending(sorted, backups[i]);
        sorted := Insert(sorted, backups[i]);
        assert backups[..i + 1] == backups[..i] + [backups[i]];
      }
      assert backups[..|backups|] == backups;
    }

    /** Everything in the directory counts, whether it is a backup or not. */
    method CleanupOldBackups()
      modifies this`entries
      ensures entries == Keep(old(entries), maxBackups)
    {
      var backups := ListBackups();
      if |backups| <= maxBackups {
        KeepsTheNewest(entries, maxBackups);
        Whole(Keep(entries, maxBackups), entries);
        return;
      }
      backups := Sort(backups);
      CountElements(backups);
      KeepIsSuffix(backups, maxBackups);
      var toDelete := |backups| - maxBackups;
      for i := 0 to toDelete
        invariant entries == Elements(backups[i..])
      {
        assert backups[i..] == [backups[i]] + backups[i + 1..];
        forall j | i < j < |backups| ensures backups[j] != backups[i] {
          LessIrreflexive(backups[i]);
        }
        entries := entries - {backups[i]};
      }
    }

    /** A backup whose copy succeeded; a failed copy ends before the cleanup. */
    method BackupNow(now: Stamp, copied: bool) returns (ok: bool)
      modifies this`entries
      ensures ok == copied
      ensures entries == if copied then Keep(old(entries) + {PathOf(now)}, maxBackups) else old(entries)
      ensures copied ==> (PathOf(now) in entries <==> |Above(old(entries), PathOf(now))| < maxBackups)
    {
      JustMadeSurvivesIff(entries, now, maxBackups);
      if !copied {
        return false;
      }
      entries := entries + {PathOf(now)};
      CleanupOldBackups();
      return true;
    }
  }

  // ----- Whole runs -----

  function BackupRun(entries: set<string>, times: seq<Stamp>, m: nat): set<string>
    decreases |times|
  {
    if times == [] then entries else BackupRun(Keep(entries + {PathOf(times[0])}, m), times[1..], m)
  }

  function Paths(times: seq<Stamp>): set<string> {
    set t | t in times :: PathOf(t)
  }

  lemma KeepTwice(s: set<string>, m: nat)
    ensures Keep(Keep(s, m), m) == Keep(s, m)
  {
    KeepsTheNewest(s, m);
    KeepsTheNewest(Keep(s, m), m);
    Whole(Keep(Keep(s, m), m), Keep(s, m));
  }

  lemma {:induction false} KeepAbsorbsMany(s: set<string>, more: set<string>, m: nat)
    ensures Keep(Keep(s, m) + more, m) == Keep(s + more, m)
    decreases |more|
  {
    if more == {} {
      assert Keep(s, m) + more == Keep(s, m) && s + more == s;
      KeepTwice(s, m);
    } else {
      var x :| x in more;
      var rest := more - {x};
      KeepAbsorbsMany(s, rest, m);
      KeepAbsorbsKeep(Keep(s, m) + rest, x, m);
      KeepAbsorbsKeep(s + rest, x, m);
      assert Keep(s, m) + rest + {x} == Keep(s, m) + more && s + rest + {x} == s + more;
    }
  }

  /** After any run of backups the directory holds the newest names of everything there ever was. */
  lemma {:induction false} RunKeepsTheNewest(entries: set<string>, times: seq<Stamp>, m: nat)
    requires times != []
    ensures BackupRun(entries, times, m) == Keep(entries + Paths(times), m)
    decreases |times|
  {
    var first := PathOf(times[0]);
    assert Paths(times) == {first} + Paths(times[1..]);
    if |times| == 1 {
      assert Paths(times[1..]) == {};
      assert entries + {first} == entries + Paths(times);
    } else {
      var s := entries + {first};
      RunKeepsTheNewest(Keep(s, m), times[1..], m);
      KeepAbsorbsMany(s, Paths(times[1..]), m);
      assert s + Paths(times[1..]) == entries + Paths(times);
    }
  }

  /** And the last backup of any run from any directory. */
  lemma LastSurvivesIff(entries: set<string>, times: seq<Stamp>, m: nat)
    requires times != []
    ensures var last := PathOf(times[|times| - 1]);
      last in BackupRun(entries, times, m) <==> |Above(entries + Paths(times), last)| < m
  {
    RunKeepsTheNewest(entries, times, m);
    assert PathOf(times[|times| - 1]) in Paths(times);
  }

  function PathSet(stamps: set<Stamp>): set<string> {
    set t | t in stamps :: PathOf(t)
  }

  function Stamps(times: seq<Stamp>): set<Stamp> {
    set t | t in times
  }

  /** The backups that local calendar time puts after t. */
  function After(stamps: set<Stamp>, t: Stamp): set<Stamp> {
    set u | u in stamps && Before(t, u)
  }

  predicate SameWidth(stamps: set<Stamp>, w: nat) {
    forall t :: t in stamps ==> ValidStamp(t) && |Decimal(t.year)| == w
  }

  lemma OneMorePath(stamps: set<Stamp>, t: Stamp, w: nat)
    requires SameWidth(stamps + {t}, w) && t !in stamps && |PathSet(stamps)| == |stamps|
    ensures |PathSet(stamps + {t})| == |stamps| + 1
  {
    forall u | u in stamps ensures PathOf(u) != PathOf(t) {
      NamesFollowTime(u, t);
    }
    assert PathOf(t) !in PathSet(stamps);
    assert PathSet(stamps + {t}) == PathSet(stamps) + {PathOf(t)};
  }

  lemma {:induction false} CountPaths(stamps: set<Stamp>, w: nat)
    requires SameWidth(stamps, w)
    ensures |PathSet(stamps)| == |stamps|
    decreases |stamps|
  {
    if stamps != {} {
      var t :| t in stamps;
      var rest := stamps - {t};
      assert stamps == rest + {t};
      CountPaths(rest, w);
      OneMorePath(rest, t, w);
    }
  }

  lemma AboveIsAfter(stamps: set<Stamp>, t: Stamp, w: nat)
    requires SameWidth(stamps + {t}, w)
    ensures |Above(PathSet(stamps), PathOf(t))| == |After(stamps, t)|
  {
    forall u | u in stamps ensures Less(PathOf(t), PathOf(u)) <==> Before(t, u) {
      NamesFollowTime(t, u);
    }
    assert Above(PathSet(stamps), PathOf(t)) == PathSet(After(stamps, t));
    CountPaths(After(stamps, t), w);
  }

  lemma PathsOfAll(stamps: set<Stamp>, times: seq<Stamp>)
    requires times != []
    ensures PathSet(stamps) + Paths(times) == PathSet(stamps + Stamps(times))
    ensures stamps + Stamps(times) + {times[|times| - 1]} == stamps + Stamps(times)
  {
    assert Paths(times) == PathSet(Stamps(times));
  }

  /** In terms of time, for years of equally many digits: the last backup of a run survives exactly if
      fewer than m of all backups, old ones included, are stamped after it. A clock that steps back over m
      backups, as when summer time ends, loses the backup just made. */
  lemma LastSurvivesInTimeIff(stamps: set<Stamp>, times: seq<Stamp>, m: nat, w: nat)
    requires times != [] && SameWidth(stamps + Stamps(times), w)
    ensures var last := times[|times| - 1];
      PathOf(last) in BackupRun(PathSet(stamps), times, m) <==> |After(stamps + Stamps(times), last)| < m
  {
    var last := times[|times| - 1];
    LastSurvivesIff(PathSet(stamps), times, m);
    PathsOfAll(stamps, times);
    AboveIsAfter(stamps + Stamps(times), last, w);
  }

  /** The least case: room for one backup, and the clock went back between two. */
  lemma SteppingBackLosesTheBackup(a: Stamp, b: Stamp, w: nat)
    requires SameWidth({a, b}, w) && Before(b, a)
    ensures PathOf(b) !in BackupRun({}, [a, b], 1)
  {
    var none: set<Stamp> := {};
    assert PathSet(none) == {};
    assert none + Stamps([a, b]) == {a, b};
    LastSurvivesInTimeIff(none, [a, b], 1, w);
    assert a in After({a, b}, b);
  }

  /** So while no backup, old or new, is stamped after the one just made, it survives if any may. */
  lemma JustMadeSurvives(stamps: set<Stamp>, times: seq<Stamp>, m: nat, w: nat)
    requires times != [] && m > 0 && SameWidth(stamps + Stamps(times), w)
    requires forall t :: t in stamps || t in times ==> !Before(times[|times| - 1], t)
    ensures PathOf(times[|times| - 1]) in BackupRun(PathSet(stamps), times, m)
  {
    LastSurvivesInTimeIff(stamps, times, m, w);
    assert After(stamps + Stamps(times), times[|times| - 1]) == {};
  }
}
