/** Strings as the source uses them: code-point order, sorted lists, `str.split`, `str.join` and decimal numerals. */
module Text {
  newtype byte = n: int | 0 <= n < 0x100

  type Bytes = seq<byte>

  datatype Option<+T> = None | Some(value: T)
  {
    function GetOr(default: T): T {
      if Some? then value else default
    }
  }

  // ---------------------------------------------------------------- code-point order

  /** Python's `<` on strings. */
  predicate Less(a: string, b: string) {
    b != [] && (a == [] || a[0] < b[0] || (a[0] == b[0] && Less(a[1..], b[1..])))
  }

  lemma {:induction false} LessTransitive(a: string, b: string, c: string)
    requires Less(a, b) && Less(b, c)
    ensures Less(a, c)
  {
    if a != [] && a[0] == b[0] == c[0] {
      LessTransitive(a[1..], b[1..], c[1..]);
    }
  }

  lemma {:induction false} LessTotal(a: string, b: string)
    ensures Less(a, b) || Less(b, a) || a == b
    ensures !(Less(a, b) && Less(b, a))
    ensures !Less(a, a)
  {
    if a != [] {
      LessTotal(a[1..], a[1..]);
    }
    if a != [] && b != [] && a[0] == b[0] {
      LessTotal(a[1..], b[1..]);
      assert a == [a[0]] + a[1..] && b == [b[0]] + b[1..];
    }
  }

  /** `i` is the first place where `b` goes on after `a` has ended, or has the greater character. */
  predicate FallsBehindAt(a: string, b: string, i: nat) {
    i <= |a| && i < |b| && a[..i] == b[..i] && (i == |a| || a[i] < b[i])
  }

  lemma {:induction false} LessExactly(a: string, b: string)
    ensures Less(a, b) <==> exists i: nat :: FallsBehindAt(a, b, i)
  {
    if a == [] || b == [] || a[0] != b[0] {
      assert b != [] ==> FallsBehindAt(a, b, 0) == (a == [] || a[0] < b[0]);
    } else {
      LessExactly(a[1..], b[1..]);
      if i: nat :| FallsBehindAt(a[1..], b[1..], i) {
        assert a == [a[0]] + a[1..] && b == [b[0]] + b[1..];
        assert a[..i + 1] == [a[0]] + a[1..][..i] && b[..i + 1] == [b[0]] + b[1..][..i];
        assert FallsBehindAt(a, b, i + 1);
      }
      if j: nat :| FallsBehindAt(a, b, j) {
        assert j > 0;
        assert a[1..][..j - 1] == a[..j][1..] && b[1..][..j - 1] == b[..j][1..];
        assert FallsBehindAt(a[1..], b[1..], j - 1);
      }
    }
  }

  // ---------------------------------------------------------------- sorted(set)

  ghost predicate StrictlySorted(q: seq<string>) {
    forall i, j :: 0 <= i < j < |q| ==> Less(q[i], q[j])
  }

  predicate IsLeast(m: string, s: set<string>) {
    m in s && forall y <- s :: y == m || Less(m, y)
  }

  lemma {:induction false} LeastExists(s: set<string>)
    requires s != {}
    ensures exists m :: IsLeast(m, s)
  {
    var x :| x in s;
    var rest := s - {x};
    if rest == {} {
      assert s == {x};
      assert IsLeast(x, s);
    } else {
      LeastExists(rest);
      var m :| IsLeast(m, rest);
      LessTotal(x, m);
      if Less(x, m) {
        forall y | y in s && y != x ensures Less(x, y) {
          if y != m { LessTransitive(x, m, y); }
        }
        assert IsLeast(x, s);
      } else {
        assert IsLeast(m, s);
      }
    }
  }

  lemma LeastUnique(s: set<string>)
    ensures forall m, n :: IsLeast(m, s) && IsLeast(n, s) ==> m == n
  {
    forall m, n | IsLeast(m, s) && IsLeast(n, s) ensures m == n { LessTotal(m, n); }
  }

  function Least(s: set<string>): (m: string)
    requires s != {}
    ensures IsLeast(m, s)
  {
    LeastExists(s);
    LeastUnique(s);
    var m :| m in s && IsLeast(m, s);
    m
  }

  /** `sorted(s)` for a set of strings. */
  function SortSet(s: set<string>): (r: seq<string>)
    ensures forall x :: x in r <==> x in s
    ensures StrictlySorted(r)
    decreases |s|
  {
    if s == {} then []
    else
      var m := Least(s);
      [m] + SortSet(s - {m})
  }

  /** A strictly sorted list is determined by its elements: sorting forgets order and repetition. */
  lemma {:induction false} SortedUnique(p: seq<string>, q: seq<string>)
    requires StrictlySorted(p) && StrictlySorted(q)
    requires forall x :: x in p <==> x in q
    ensures p == q
  {
    assert q != [] ==> q[0] in p;
    if p != [] {
      assert p[0] in q;
      var i :| 0 <= i < |q| && q[i] == p[0];
      var j :| 0 <= j < |p| && p[j] == q[0];
      LessTotal(p[0], q[0]);
      assert p[0] == q[0];
      forall x ensures x in p[1..] <==> x in q[1..] {
        LessTotal(p[0], p[0]);
        if x in p[1..] { assert x in p && x != p[0]; assert x in q; }
        if x in q[1..] { assert x in q && x != p[0]; assert x in p; }
      }
      SortedUnique(p[1..], q[1..]);
      assert p == [p[0]] + p[1..] && q == [q[0]] + q[1..];
    }
  }

  lemma {:induction false} SortedSize(q: seq<string>)
    requires StrictlySorted(q)
    ensures |set x | x in q| == |q|
  {
    if q != [] {
      var n := |q| - 1;
      SortedSize(q[..n]);
      LessTotal(q[n], q[n]);
      assert q[n] !in q[..n];
      assert (set x | x in q) == (set x | x in q[..n]) + {q[n]};
    }
  }

  ghost function Preceding(q: seq<string>, x: string): set<string> {
    set y | y in q && Less(y, x)
  }

  /** In a sorted list, as many elements come before one as stand in front of it. */
  lemma RankIsPosition(q: seq<string>, i: nat)
    requires StrictlySorted(q) && i < |q|
    ensures |Preceding(q, q[i])| == i
  {
    forall x ensures x in Preceding(q, q[i]) <==> x in q[..i] {
      if x in Preceding(q, q[i]) {
        var j :| 0 <= j < |q| && q[j] == x;
        LessTotal(q[i], q[j]);
        assert j < i;
      }
      if x in q[..i] {
        var j :| 0 <= j < i && q[j] == x;
        assert Less(q[j], q[i]);
      }
    }
    assert Preceding(q, q[i]) == set x | x in q[..i];
    SortedSize(q[..i]);
  }

  // ---------------------------------------------------------------- str.split and str.join on one character

  /** `x` put in front of the first part. */
  function Glue(x: char, parts: seq<string>): (r: seq<string>)
    requires parts != []
    ensures |r| == |parts|
  {
    [[x] + parts[0]] + parts[1..]
  }

  function Split(s: string, c: char): (r: seq<string>)
    ensures |r| >= 1
  {
    if s == [] then [""]
    else if s[0] == c then [""] + Split(s[1..], c)
    else Glue(s[0], Split(s[1..], c))
  }

  /** The segments of a path in the sense of section 3.3 of RFC 3986. */
  function Segments(path: string): seq<string> { Split(path, '/') }

  function Join(parts: seq<string>, c: char): string {
    if parts == [] then "" else if |parts| == 1 then parts[0] else parts[0] + [c] + Join(parts[1..], c)
  }

  /** Text put in front of the first part comes out in front of the joined text. */
  lemma JoinPrepend(h: string, parts: seq<string>, c: char)
    requires parts != []
    ensures Join([h + parts[0]] + parts[1..], c) == h + Join(parts, c)
  {
    var longer := [h + parts[0]] + parts[1..];
    if |parts| > 1 {
      assert longer[1..] == parts[1..];
      assert (h + parts[0]) + [c] + Join(parts[1..], c) == h + (parts[0] + [c] + Join(parts[1..], c));
    }
  }

  lemma {:induction false} JoinSplit(s: string, c: char)
    ensures Join(Split(s, c), c) == s
  {
    if s != [] {
      JoinSplit(s[1..], c);
      var rest := Split(s[1..], c);
      assert s == [s[0]] + s[1..];
      if s[0] == c {
        assert ([""] + rest)[1..] == rest;
      } else {
        JoinPrepend([s[0]], rest, c);
      }
    }
  }

  lemma {:induction false} SplitParts(s: string, c: char)
    ensures forall p :: p in Split(s, c) ==> c !in p
  {
    if s != [] { SplitParts(s[1..], c); }
  }

  /** Splitting at a separator that is really there splits both sides independently. */
  lemma {:induction false} SplitConcat(a: string, b: string, c: char)
    ensures Split(a + [c] + b, c) == Split(a, c) + Split(b, c)
  {
    if a == [] {
      assert (a + [c] + b)[1..] == b;
    } else {
      SplitConcat(a[1..], b, c);
      SplitConcatStep(a[0], a[1..], b, c);
      assert a == [a[0]] + a[1..];
    }
  }

  lemma SplitConcatStep(x: char, rest: string, b: string, c: char)
    requires Split(rest + [c] + b, c) == Split(rest, c) + Split(b, c)
    ensures Split([x] + rest + [c] + b, c) == Split([x] + rest, c) + Split(b, c)
  {
    assert [x] + rest + [c] + b == [x] + (rest + [c] + b);
    SplitStep(x, rest + [c] + b, c);
    SplitStep(x, rest, c);
    if x == c {
      Regroup([""], Split(rest, c), Split(b, c));
    } else {
      GlueConcat(x, Split(rest, c), Split(b, c));
    }
  }

  lemma SplitStep(x: char, s: string, c: char)
    ensures Split([x] + s, c) == if x == c then [""] + Split(s, c) else Glue(x, Split(s, c))
  {
    assert ([x] + s)[1..] == s;
  }

  lemma Regroup<T>(a: seq<T>, b: seq<T>, c: seq<T>)
    ensures (a + b) + c == a + (b + c)
  {
  }

  lemma GlueConcat(x: char, p: seq<string>, q: seq<string>)
    requires p != []
    ensures Glue(x, p + q) == Glue(x, p) + q
  {
    assert (p + q)[1..] == p[1..] + q;
  }

  lemma {:induction false} SplitWhole(s: string, c: char)
    requires c !in s
    ensures Split(s, c) == [s]
  {
    if s != [] {
      SplitWhole(s[1..], c);
      assert s == [s[0]] + s[1..];
    }
  }

  lemma {:induction false} SplitJoin(parts: seq<string>, c: char)
    requires parts != []
    requires forall p :: p in parts ==> c !in p
    ensures Split(Join(parts, c), c) == parts
  {
    SplitWhole(parts[0], c);
    if |parts| > 1 {
      SplitJoin(parts[1..], c);
      SplitConcat(parts[0], Join(parts[1..], c), c);
      assert parts == [parts[0]] + parts[1..];
    }
  }

  /** A head without the separator ends at the first separator. */
  lemma HeadEndsAtSeparator(m: string, n: string, v: string, w: string, c: char)
    requires c !in m && c !in n && m + [c] + v == n + [c] + w
    ensures m == n && v == w
  {
    var u := m + [c] + v;
    SplitWhole(m, c);
    SplitWhole(n, c);
    SplitConcat(m, v, c);
    SplitConcat(n, w, c);
    assert m == Split(u, c)[0] == n;
    assert v == u[|m| + 1..] == w;
  }

  // ---------------------------------------------------------------- decimal numerals (int.__repr__)

  predicate IsDigit(c: char) { '0' <= c <= '9' }

  function DigitChar(d: nat): char
    requires d < 10
  {
    ('0' as int + d) as char
  }

  function Digits(n: nat): (r: string)
    ensures r != []
    ensures forall i :: 0 <= i < |r| ==> IsDigit(r[i])
  {
    if n < 10 then [DigitChar(n)] else Digits(n / 10) + [DigitChar(n % 10)]
  }

  function Decimal(n: int): string {
    if n < 0 then "-" + Digits(-n) else Digits(n)
  }

  function DigitValue(c: char): (d: nat)
    requires IsDigit(c)
    ensures d < 10
  {
    match c
    case '0' => 0
    case '1' => 1
    case '2' => 2
    case '3' => 3
    case '4' => 4
    case '5' => 5
    case '6' => 6
    case '7' => 7
    case '8' => 8
    case '9' => 9
  }

  /** The number that a row of digits stands for. */
  function Reading(digits: string): nat
    requires forall c :: c in digits ==> IsDigit(c)
  {
    if digits == "" then 0
    else
      var n := |digits| - 1;
      assert forall c :: c in digits[..n] ==> c in digits;
      assert digits[n] in digits;
      10 * Reading(digits[..n]) + DigitValue(digits[n])
  }

  /** The digits of a number stand for it, without zeros in front. */
  lemma {:induction false} DigitsReadBack(n: nat)
    ensures Reading(Digits(n)) == n
    ensures |Digits(n)| > 1 ==> Digits(n)[0] != '0'
  {
    if n >= 10 {
      DigitsReadBack(n / 10);
      assert Digits(n)[..|Digits(n)| - 1] == Digits(n / 10);
      assert |Digits(n / 10)| == 1 ==> Digits(n / 10)[0] == DigitChar(n / 10);
    }
  }

  /** A numeral is a sign for a negative number, and then the digits of its size. */
  lemma DecimalReadsBack(n: int)
    ensures n >= 0 ==> Decimal(n) == Digits(n) && Reading(Decimal(n)) == n
    ensures n < 0 ==> Decimal(n)[0] == '-' && Decimal(n)[1..] == Digits(-n) && Reading(Decimal(n)[1..]) == -n
  {
    DigitsReadBack(if n < 0 then -n else n);
  }

  lemma {:induction false} DigitsInjective(m: nat, n: nat)
    requires Digits(m) == Digits(n)
    ensures m == n
  {
    var a, b := Digits(m), Digits(n);
    assert a[|a| - 1] == b[|b| - 1];
    assert m % 10 == n % 10;
    assert (m >= 10 ==> |a| > 1) && (n >= 10 ==> |b| > 1);
    if m >= 10 && n >= 10 {
      assert a[..|a| - 1] == Digits(m / 10) && b[..|b| - 1] == Digits(n / 10);
      DigitsInjective(m / 10, n / 10);
    }
  }

  lemma DecimalInjective(m: int, n: int)
    requires Decimal(m) == Decimal(n)
    ensures m == n
  {
    assert Decimal(m)[0] == '-' <==> m < 0;
    assert Decimal(n)[0] == '-' <==> n < 0;
    if m < 0 {
      assert Decimal(m)[1..] == Digits(-m) && Decimal(n)[1..] == Digits(-n);
      DigitsInjective(-m, -n);
    } else {
      DigitsInjective(m, n);
    }
  }
}
