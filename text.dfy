/**
 * The string utilities of the two browser clients and of the report
 * controller: phone-number formatting, punch-type labels, first names,
 * zero-padded day keys and the Monday that starts the current week.
 */
module TextFormat {
  import opened Common
  import opened Punches
  import opened Sorting

  // ---- phone numbers ----

  /** The regular-expression class `\d`: the ASCII digits. */
  predicate IsDigit(c: char) {
    '0' <= c <= '9'
  }

  /** `s.replace(/\D/g, '')`: the digits of s, in order. */
  function DigitsOf(s: string): (r: string)
    ensures |r| <= |s|
    ensures forall k :: 0 <= k < |r| ==> IsDigit(r[k])
  {
    if s == [] then []
    else if IsDigit(s[0]) then [s[0]] + DigitsOf(s[1..])
    else DigitsOf(s[1..])
  }

  /** Keeping the digits is filtering by `IsDigit`: every digit stays, in
      order, and nothing else does. */
  lemma {:induction false} DigitsOfIsFilter(s: string)
    ensures DigitsOf(s) == Filter(s, IsDigit)
  {
    if s != [] {
      var pre, c := s[..|s| - 1], s[|s| - 1];
      assert s == pre + [c];
      DigitsOfConcat(pre, [c]);
      assert DigitsOf([c]) == if IsDigit(c) then [c] else [] by {
        assert [c][1..] == [];
      }
      DigitsOfIsFilter(pre);
    }
  }

  lemma {:induction false} DigitsOfConcat(a: string, b: string)
    ensures DigitsOf(a + b) == DigitsOf(a) + DigitsOf(b)
  {
    if a != [] {
      var ab := a + b;
      assert ab != [] && ab[0] == a[0] && ab[1..] == a[1..] + b;
      DigitsOfConcat(a[1..], b);
      if IsDigit(a[0]) {
        assert DigitsOf(ab) == [a[0]] + DigitsOf(a[1..] + b);
        assert [a[0]] + (DigitsOf(a[1..]) + DigitsOf(b)) == ([a[0]] + DigitsOf(a[1..])) + DigitsOf(b);
      } else {
        assert DigitsOf(ab) == DigitsOf(a[1..] + b);
      }
    } else {
      assert a + b == b;
    }
  }

  lemma {:induction false} DigitsOfDigits(s: string)
    requires forall k :: 0 <= k < |s| ==> IsDigit(s[k])
    ensures DigitsOf(s) == s
  {
    if s != [] {
      DigitsOfDigits(s[1..]);
    }
  }

  /** The XXX-XXX-XXXX layout of at most ten digits: a dash after the
      third digit once there are three, and after the sixth once there are
      six. */
  function Layout(d: string): string
    requires |d| <= 10
  {
    if |d| >= 6 then d[..3] + "-" + d[3..6] + "-" + d[6..]
    else if |d| >= 3 then d[..3] + "-" + d[3..]
    else d
  }

  /** The first ten digits of s, or all of them when there are fewer. */
  function KeptDigits(s: string): (d: string)
    ensures |d| <= 10
  {
    var all := DigitsOf(s);
    if |all| > 10 then all[..10] else all
  }

  /** `formatPhoneNumber` of the server client. */
  function FormatPhoneNumber(phone: Option<string>): (r: string)
    ensures !Truthy(phone) ==> r == ""
    ensures Truthy(phone) ==> r == Layout(KeptDigits(phone.value))
    ensures Truthy(phone) ==> DigitsOf(r) == KeptDigits(phone.value)
  {
    if !Truthy(phone) then ""
    else
      var digits := DigitsOf(phone.value);
      if |digits| == 0 then ""
      else
        var d := if |digits| > 10 then digits[..10] else digits;
        LayoutDigits(d);
        if |d| >= 6 then d[..3] + "-" + d[3..6] + "-" + d[6..]
        else if |d| >= 3 then d[..3] + "-" + d[3..]
        else d
  }

  /** The layout keeps exactly the digits it was given, puts the dashes at
      offsets 3 and 7, and nothing else in between. */
  lemma LayoutDigits(d: string)
    requires |d| <= 10 && forall k :: 0 <= k < |d| ==> IsDigit(d[k])
    ensures DigitsOf(Layout(d)) == d
    ensures |d| >= 3 ==> Layout(d)[3] == '-'
    ensures |d| >= 6 ==> Layout(d)[7] == '-'
    ensures |Layout(d)| == |d| + (if |d| >= 6 then 2 else if |d| >= 3 then 1 else 0)
    ensures forall k :: 0 <= k < |Layout(d)| && k != 3 && k != 7 ==> IsDigit(Layout(d)[k])
  {
    if |d| >= 6 {
      LayoutDigitsOfThree(d[..3], d[3..6], d[6..]);
      assert d[..3] + d[3..6] + d[6..] == d;
    } else if |d| >= 3 {
      LayoutDigitsOfTwo(d[..3], d[3..]);
      assert d[..3] + d[3..] == d;
    } else {
      DigitsOfDigits(d);
    }
  }

  lemma LayoutDigitsOfTwo(a: string, b: string)
    requires forall k :: 0 <= k < |a| ==> IsDigit(a[k])
    requires forall k :: 0 <= k < |b| ==> IsDigit(b[k])
    ensures DigitsOf(a + "-" + b) == a + b
  {
    DigitsOfDigits(a);
    DigitsOfDigits(b);
    DigitsOfDash(a);
    DigitsOfConcat(a + "-", b);
  }

  /** A dash contributes no digit. */
  lemma DigitsOfDash(a: string)
    ensures DigitsOf(a + "-") == DigitsOf(a)
  {
    DigitsOfConcat(a, "-");
    assert DigitsOf("-") == [];
    assert DigitsOf(a) + [] == DigitsOf(a);
  }

  lemma LayoutDigitsOfThree(a: string, b: string, c: string)
    requires forall k :: 0 <= k < |a| ==> IsDigit(a[k])
    requires forall k :: 0 <= k < |b| ==> IsDigit(b[k])
    requires forall k :: 0 <= k < |c| ==> IsDigit(c[k])
    ensures DigitsOf(a + "-" + b + "-" + c) == a + b + c
  {
    LayoutDigitsOfTwo(a, b);
    DigitsOfDigits(c);
    DigitsOfDash(a + "-" + b);
    DigitsOfConcat(a + "-" + b + "-", c);
  }

  /** Formatting an already formatted number changes nothing. */
  lemma FormatPhoneNumberIdempotent(phone: Option<string>)
    ensures FormatPhoneNumber(Some(FormatPhoneNumber(phone))) == FormatPhoneNumber(phone)
  {
    var r := FormatPhoneNumber(phone);
    if Truthy(phone) && r != "" {
      assert KeptDigits(r) == KeptDigits(phone.value);
    }
  }

  /** The inline `input` handlers of the add and edit forms. */
  function PhoneInputHandler(value: string): string {
    var v := DigitsOf(value);
    var v := if |v| > 10 then v[..10] else v;
    if |v| >= 6 then v[..3] + "-" + v[3..6] + "-" + v[6..]
    else if |v| >= 3 then v[..3] + "-" + v[3..]
    else v
  }

  /** The handlers and `formatPhoneNumber` agree on every string. */
  lemma PhoneInputHandlerAgrees(value: string)
    ensures PhoneInputHandler(value) == FormatPhoneNumber(Some(value))
  {
  }

  // ---- punch-type labels ----

  /** `s.split('_')`. */
  function Split(s: string): (parts: seq<string>)
    ensures |parts| >= 1
  {
    if s == [] then [[]]
    else
      var rest := Split(s[1..]);
      if s[0] == '_' then [[]] + rest else [[s[0]] + rest[0]] + rest[1..]
  }

  /** `parts.join(' ')`. */
  function Join(parts: seq<string>): string
    requires |parts| >= 1
  {
    if |parts| == 1 then parts[0] else parts[0] + " " + Join(parts[1..])
  }

  /** `w.charAt(0).toUpperCase() + w.slice(1)`. */
  function Capitalize(w: string): (r: string)
    ensures |r| == |w|
  {
    if w == [] then [] else [UpperChar(w[0])] + w[1..]
  }

  function CapitalizeAll(parts: seq<string>): (r: seq<string>)
    ensures |r| == |parts| && forall i :: 0 <= i < |parts| ==> r[i] == Capitalize(parts[i])
  {
    if parts == [] then [] else [Capitalize(parts[0])] + CapitalizeAll(parts[1..])
  }

  /** `formatPunchType` (the same in both clients). */
  function FormatPunchType(s: string): string {
    Join(CapitalizeAll(Split(s)))
  }

  /** The label character by character: each underscore becomes a space,
      the first character and each character after an underscore is
      upper-cased, and every other character stays. */
  function LabelFrom(s: string, atStart: bool): (r: string)
    ensures |r| == |s|
    ensures forall i :: 0 <= i < |s| ==> r[i] == LabelChar(s, atStart, i)
  {
    if s == [] then []
    else
      var rest := LabelFrom(s[1..], s[0] == '_');
      var r := [LabelChar(s, atStart, 0)] + rest;
      assert forall i :: 0 <= i < |s| ==> r[i] == LabelChar(s, atStart, i) by {
        forall i | 1 <= i < |s| ensures r[i] == LabelChar(s, atStart, i) {
          assert r[i] == rest[i - 1] == LabelChar(s[1..], s[0] == '_', i - 1);
          assert s[1..][i - 1] == s[i];
          if i > 1 {
            assert s[1..][i - 2] == s[i - 1];
          }
        }
      }
      r
  }

  /** Character i of the label: an underscore becomes a space, the first
      character of a part is upper-cased, any other character stays. */
  function LabelChar(s: string, atStart: bool, i: nat): char
    requires i < |s|
  {
    var startsPart := if i == 0 then atStart else s[i - 1] == '_';
    if s[i] == '_' then ' ' else if startsPart then UpperChar(s[i]) else s[i]
  }

  /** The label of s continued from the middle of a part (atStart false)
      or from the start of one (atStart true). */
  lemma {:induction false} SplitJoinLabel(s: string, atStart: bool)
    ensures var parts := Split(s);
      var first := if atStart then Capitalize(parts[0]) else parts[0];
      Join([first] + CapitalizeAll(parts[1..])) == LabelFrom(s, atStart)
  {
    if s != [] {
      var rest := Split(s[1..]);
      var tail := LabelFrom(s[1..], s[0] == '_');
      SplitJoinLabel(s[1..], s[0] == '_');
      assert LabelFrom(s, atStart) == [LabelChar(s, atStart, 0)] + tail;
      if s[0] == '_' {
        assert Split(s) == [[]] + rest;
        var caps := CapitalizeAll(rest);
        assert caps == [Capitalize(rest[0])] + CapitalizeAll(rest[1..]);
        JoinAfterEmpty(caps);
      } else {
        var p0 := [s[0]] + rest[0];
        assert Split(s) == [p0] + rest[1..];
        var c := if atStart then UpperChar(s[0]) else s[0];
        assert (if atStart then Capitalize(p0) else p0) == [c] + rest[0];
        JoinConsHead(c, rest[0], CapitalizeAll(rest[1..]));
      }
    }
  }

  /** Joining after an empty first part puts a space in front. */
  lemma JoinAfterEmpty(xs: seq<string>)
    requires |xs| >= 1
    ensures Join([[]] + xs) == " " + Join(xs)
  {
    assert ([[]] + xs)[1..] == xs;
  }

  /** A character at the head of the first part leads the join. */
  lemma JoinConsHead(c: char, r0: string, xs: seq<string>)
    ensures Join([[c] + r0] + xs) == [c] + Join([r0] + xs)
  {
    assert ([[c] + r0] + xs)[1..] == xs && ([r0] + xs)[1..] == xs;
    if xs != [] {
      assert ([c] + r0) + " " + Join(xs) == [c] + (r0 + " " + Join(xs));
    }
  }

  /** `formatPunchType` keeps the length, turns exactly the underscores
      into spaces, and upper-cases exactly the first character of each
      part. */
  lemma FormatPunchTypeByCharacter(s: string)
    ensures FormatPunchType(s) == LabelFrom(s, true)
    ensures |FormatPunchType(s)| == |s|
  {
    SplitJoinLabel(s, true);
    var parts := Split(s);
    assert CapitalizeAll(parts) == [Capitalize(parts[0])] + CapitalizeAll(parts[1..]);
  }

  function CountChar(s: string, c: char): nat {
    if s == [] then 0 else (if s[0] == c then 1 else 0) + CountChar(s[1..], c)
  }

  /** The number of parts is one more than the number of underscores. */
  lemma {:induction false} SplitCount(s: string)
    ensures |Split(s)| == CountChar(s, '_') + 1
  {
    if s != [] {
      SplitCount(s[1..]);
    }
  }

  /** A part without underscores splits off whole. */
  lemma {:induction false} SplitAfterPart(a: string, rest: string)
    requires '_' !in a
    ensures Split(a + "_" + rest) == [a] + Split(rest)
  {
    var s := a + "_" + rest;
    if a == [] {
      assert s[0] == '_' && s[1..] == rest;
    } else {
      assert s[0] == a[0] && s[1..] == a[1..] + "_" + rest;
      SplitAfterPart(a[1..], rest);
      assert [a[0]] + a[1..] == a;
    }
  }

  lemma {:induction false} SplitWhole(a: string)
    requires '_' !in a
    ensures Split(a) == [a]
  {
    if a != [] {
      SplitWhole(a[1..]);
      assert [a[0]] + a[1..] == a;
    }
  }

  /** A two-part type name becomes its two parts capitalised, separated by
      a space. */
  lemma TwoPartLabel(a: string, b: string)
    requires '_' !in a && '_' !in b
    ensures FormatPunchType(a + "_" + b) == Capitalize(a) + " " + Capitalize(b)
  {
    SplitAfterPart(a, b);
    SplitWhole(b);
    var caps := CapitalizeAll([a, b]);
    assert caps == [Capitalize(a), Capitalize(b)];
    assert Join(caps) == caps[0] + " " + Join(caps[1..]);
  }

  /** The label shown for each punch type. */
  function ButtonLabel(t: PunchType): string {
    match t
    case ClockIn => "Clock In"
    case ClockOut => "Clock Out"
    case LunchOut => "Lunch Out"
    case LunchIn => "Lunch In"
  }

  /** `formatPunchType` turns each stored type name into its label. */
  lemma PunchTypeLabel(t: PunchType)
    ensures FormatPunchType(TypeName(t)) == ButtonLabel(t)
  {
    match t
    case ClockIn => TwoPartLabelIs("clock", "in", TypeName(t), "Clock", "In", ButtonLabel(t));
    case ClockOut => TwoPartLabelIs("clock", "out", TypeName(t), "Clock", "Out", ButtonLabel(t));
    case LunchOut => TwoPartLabelIs("lunch", "out", TypeName(t), "Lunch", "Out", ButtonLabel(t));
    case LunchIn => TwoPartLabelIs("lunch", "in", TypeName(t), "Lunch", "In", ButtonLabel(t));
  }

  lemma TwoPartLabelIs(a: string, b: string, name: string, la: string, lb: string, shown: string)
    requires '_' !in a && '_' !in b && name == a + "_" + b
    requires la == Capitalize(a) && lb == Capitalize(b) && shown == la + " " + lb
    ensures FormatPunchType(name) == shown
  {
    TwoPartLabel(a, b);
  }

  // ---- first names ----

  /** The characters of s before its first white space. */
  function FirstWord(s: string): (w: string)
    ensures |w| <= |s| && w == s[..|w|]
    ensures forall k :: 0 <= k < |w| ==> !IsSpace(w[k])
    ensures |w| < |s| ==> IsSpace(s[|w|])
  {
    if s == [] || IsSpace(s[0]) then [] else [s[0]] + FirstWord(s[1..])
  }

  /** `getFirstName`: the first word of the trimmed name, or "Employee"
      when the name is missing or blank. */
  function GetFirstName(fullName: Option<string>): (r: string)
    ensures !Truthy(fullName) || AllSpace(fullName.value) ==> r == "Employee"
    ensures Truthy(fullName) && !AllSpace(fullName.value) ==>
      var t := Trim(fullName.value);
      && r != []
      && |r| <= |t| && r == t[..|r|]
      && (forall k :: 0 <= k < |r| ==> !IsSpace(r[k]))
      && (|r| < |t| ==> IsSpace(t[|r|]))
  {
    if !Truthy(fullName) then "Employee"
    else
      var first := FirstWord(Trim(fullName.value));
      if first == "" then "Employee" else first
  }

  // ---- day keys ----

  function DigitChar(n: nat): char
    requires n < 10
  {
    ('0' as int + n) as char
  }

  /** `String(n)` for a natural number. */
  function NatString(n: nat): string
    decreases n
  {
    if n < 10 then [DigitChar(n)] else NatString(n / 10) + [DigitChar(n % 10)]
  }

  function Pow10(w: nat): (p: nat)
    ensures p >= 1
  {
    if w == 0 then 1 else 10 * Pow10(w - 1)
  }

  /** n written with exactly w decimal digits. */
  function FixedDigits(n: nat, w: nat): (r: string)
    requires n < Pow10(w)
    ensures |r| == w
  {
    if w == 0 then [] else FixedDigits(n / 10, w - 1) + [DigitChar(n % 10)]
  }

  /** Without leading zeros, `String(n)` is n at its own width. */
  lemma {:induction false} NatStringIsFixed(n: nat, w: nat)
    requires w >= 1 && Pow10(w - 1) <= n < Pow10(w)
    ensures NatString(n) == FixedDigits(n, w)
  {
    if w > 1 {
      NatStringIsFixed(n / 10, w - 1);
    }
  }

  /** Same-width digit strings compare as the numbers they write. */
  lemma {:induction false} FixedDigitsOrder(a: nat, b: nat, w: nat)
    requires a < Pow10(w) && b < Pow10(w)
    ensures StrLt(FixedDigits(a, w), FixedDigits(b, w)) <==> a < b
    ensures FixedDigits(a, w) == FixedDigits(b, w) <==> a == b
  {
    if w > 0 {
      FixedDigitsOrder(a / 10, b / 10, w - 1);
      StrLtConcat(FixedDigits(a / 10, w - 1), FixedDigits(b / 10, w - 1), [DigitChar(a % 10)], [DigitChar(b % 10)]);
      var p, q := FixedDigits(a / 10, w - 1), FixedDigits(b / 10, w - 1);
      if p + [DigitChar(a % 10)] == q + [DigitChar(b % 10)] {
        assert p == (p + [DigitChar(a % 10)])[..w - 1];
        assert q == (q + [DigitChar(b % 10)])[..w - 1];
      }
    }
  }

  /** `String(n).padStart(2, '0')`. */
  function PadStart2(s: string): string {
    if |s| >= 2 then s else seq(2 - |s|, _ => '0') + s
  }

  /** `String(n)` for an integer, with a minus sign when negative. */
  function IntString(n: int): string {
    if n < 0 then "-" + NatString(-n) else NatString(n)
  }

  /** `localDateString` / `dateKeyLocal` from a calendar date's year, month
      (1 to 12) and day of the month. */
  function DateKey(year: int, month: nat, day: nat): string {
    IntString(year) + "-" + PadStart2(NatString(month)) + "-" + PadStart2(NatString(day))
  }

  lemma PadStart2IsFixed(n: nat)
    requires n < 100
    ensures PadStart2(NatString(n)) == FixedDigits(n, 2)
  {
    assert Pow10(1) == 10 && Pow10(2) == 100;
    if n < 10 {
      assert FixedDigits(n, 2) == FixedDigits(0, 1) + [DigitChar(n)];
    } else {
      NatStringIsFixed(n, 2);
    }
  }

  /** A calendar date of a four-digit year. */
  predicate ValidDate(y: int, m: int, d: int) {
    1000 <= y <= 9999 && 1 <= m <= 12 && 1 <= d <= 31
  }

  /** For four-digit years the key is `YYYY-MM-DD`, ten characters with
      the dashes at offsets 4 and 7, all others digits. */
  lemma DateKeyShape(y: int, m: nat, d: nat)
    requires ValidDate(y, m, d)
    ensures DateKey(y, m, d) == FixedDigits(y, 4) + "-" + FixedDigits(m, 2) + "-" + FixedDigits(d, 2)
    ensures |DateKey(y, m, d)| == 10 && DateKey(y, m, d)[4] == '-' && DateKey(y, m, d)[7] == '-'
  {
    YearIsFixed(y);
    PadStart2IsFixed(m);
    PadStart2IsFixed(d);
    DashedShape(FixedDigits(y, 4), FixedDigits(m, 2), FixedDigits(d, 2));
  }

  lemma YearIsFixed(y: int)
    requires 1000 <= y <= 9999
    ensures Pow10(4) == 10000 && IntString(y) == FixedDigits(y, 4)
  {
    assert Pow10(3) == 1000 && Pow10(4) == 10000;
    NatStringIsFixed(y, 4);
  }

  lemma DashedShape(a: string, b: string, c: string)
    requires |a| == 4 && |b| == 2 && |c| == 2
    ensures var k := a + "-" + b + "-" + c; |k| == 10 && k[4] == '-' && k[7] == '-'
  {
  }

  /** Two strings joined by a dash, compared against two others whose first
      parts have the same length: the first parts decide unless equal. */
  lemma DashJoinCompare(p: string, q: string, x: string, y: string)
    requires |p| == |q|
    ensures StrLt(p + "-" + x, q + "-" + y) <==> StrLt(p, q) || (p == q && StrLt(x, y))
    ensures p + "-" + x == q + "-" + y <==> p == q && x == y
  {
    assert p + "-" + x == (p + "-") + x && q + "-" + y == (q + "-") + y;
    StrLtConcat(p + "-", q + "-", x, y);
    StrLtConcat(p, q, "-", "-");
    StrLtIrreflexive("-");
    EqualConcat(p + "-", q + "-", x, y);
    EqualConcat(p, q, "-", "-");
  }

  /** Keys of three dash-separated parts, the first two of matching
      lengths, compare part by part. */
  lemma ThreePartCompare(ya: string, ma: string, da: string, yb: string, mb: string, db: string)
    requires |ya| == |yb| && |ma| == |mb|
    ensures StrLt(ya + "-" + ma + "-" + da, yb + "-" + mb + "-" + db) <==>
      StrLt(ya, yb) || (ya == yb && (StrLt(ma, mb) || (ma == mb && StrLt(da, db))))
    ensures ya + "-" + ma + "-" + da == yb + "-" + mb + "-" + db <==> ya == yb && ma == mb && da == db
  {
    assert ya + "-" + ma + "-" + da == ya + "-" + (ma + "-" + da);
    assert yb + "-" + mb + "-" + db == yb + "-" + (mb + "-" + db);
    DashJoinCompare(ya, yb, ma + "-" + da, mb + "-" + db);
    DashJoinCompare(ma, mb, da, db);
  }

  /** For four-digit years, comparing keys as strings (as the localStorage
      report filter does) is comparing the dates, and keys of different
      dates differ. */
  lemma DateKeyOrder(y1: int, m1: nat, d1: nat, y2: int, m2: nat, d2: nat)
    requires ValidDate(y1, m1, d1) && ValidDate(y2, m2, d2)
    ensures StrLt(DateKey(y1, m1, d1), DateKey(y2, m2, d2)) <==>
      y1 < y2 || (y1 == y2 && (m1 < m2 || (m1 == m2 && d1 < d2)))
    ensures DateKey(y1, m1, d1) == DateKey(y2, m2, d2) <==> y1 == y2 && m1 == m2 && d1 == d2
  {
    DateKeyShape(y1, m1, d1);
    DateKeyShape(y2, m2, d2);
    ThreePartCompare(FixedDigits(y1, 4), FixedDigits(m1, 2), FixedDigits(d1, 2),
                     FixedDigits(y2, 4), FixedDigits(m2, 2), FixedDigits(d2, 2));
    FixedDigitsOrder(y1, y2, 4);
    FixedDigitsOrder(m1, m2, 2);
    FixedDigitsOrder(d1, d2, 2);
  }

  lemma EqualConcat(p: string, q: string, x: string, y: string)
    requires |p| == |q|
    ensures p + x == q + y <==> p == q && x == y
  {
    if p + x == q + y {
      assert p == (p + x)[..|p|] && q == (q + y)[..|q|];
      assert x == (p + x)[|p|..] && y == (q + y)[|q|..];
    }
  }

  // ---- the current week ----

  /** The weekday of a day number counted from 1 January 1970 (a
      Thursday), 0 for Sunday through 6 for Saturday, as `getDay` gives
      it. */
  function Weekday(n: int): (w: int)
    ensures 0 <= w < 7
  {
    (n + 4) % 7
  }

  /** `initializeWeekStart`: the Monday of the current week, where a
      Sunday belongs to the week that began six days earlier, and the day
      six days after it. */
  function WeekRange(today: int): (r: (int, int))
    ensures Weekday(r.0) == 1
    ensures r.0 <= today <= r.1 && r.1 == r.0 + 6
  {
    var day := Weekday(today);
    var monday := today - day + (if day == 0 then -6 else 1);
    (monday, monday + 6)
  }

  /** The week start does not move within a week. */
  lemma WeekRangeStable(a: int, b: int)
    requires WeekRange(a).0 <= b <= WeekRange(a).1
    ensures WeekRange(b) == WeekRange(a)
  {
  }
}
