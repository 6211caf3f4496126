/**
 The Go string primitives the operator and the daemon meet on: `%d`, `strconv.Atoi`,
 `strings.TrimSpace`, `strings.Split` and `strings.Contains`.

 A string is a sequence of Unicode code points.
 */
module Text {
  import opened Common

  const MIN_INT64 := -0x8000_0000_0000_0000
  const MAX_INT64 := 0x7FFF_FFFF_FFFF_FFFF

  predicate IsInt64(n: int) { MIN_INT64 <= n <= MAX_INT64 }

  /******* Decimal numbers *******/

  predicate IsDigit(c: char) { '0' <= c <= '9' }

  predicate AllDigits(s: string) { forall i :: 0 <= i < |s| ==> IsDigit(s[i]) }

  function DigitChar(d: nat): (c: char)
    requires d < 10
    ensures IsDigit(c) && c as int - '0' as int == d
  {
    ('0' as int + d) as char
  }

  function Digits(n: nat): (s: string)
    ensures s != [] && AllDigits(s)
  {
    if n < 10 then [DigitChar(n)] else Digits(n / 10) + [DigitChar(n % 10)]
  }

  function DigitsValue(s: string): nat
    requires AllDigits(s)
  {
    if s == [] then 0
    else
      var last := |s| - 1;
      10 * DigitsValue(s[..last]) + (s[last] as int - '0' as int)
  }

  /** `fmt.Sprintf("%d", n)`. */
  function Format(n: int): (s: string)
    ensures s != []
    ensures forall i :: 0 <= i < |s| ==> IsDigit(s[i]) || s[i] == '-'
  {
    if n < 0 then "-" + Digits(-n) else Digits(n)
  }

  /** `strconv.Atoi(s)` on a 64-bit platform; None stands for every error. */
  function Atoi(s: string): Option<int> {
    var signed := s != [] && (s[0] == '-' || s[0] == '+');
    var body := if signed then s[1..] else s;
    if body == [] || !AllDigits(body) then None
    else
      var magnitude: int := DigitsValue(body);
      var n := if signed && s[0] == '-' then -magnitude else magnitude;
      if IsInt64(n) then Some(n) else None
  }

  lemma {:induction false} ValueOfDigits(n: nat)
    ensures DigitsValue(Digits(n)) == n
  {
    if n >= 10 {
      ValueOfDigits(n / 10);
      assert Digits(n)[..|Digits(n)| - 1] == Digits(n / 10);
    }
  }

  /** Printing a UID and reading it back is the identity on int64. */
  lemma AtoiFormat(n: int)
    requires IsInt64(n)
    ensures Atoi(Format(n)) == Some(n)
  {
    ValueOfDigits(if n < 0 then -n else n);
    assert n < 0 ==> Format(n)[1..] == Digits(-n);
  }

  /** An optional sign, then digits only, of this value. */
  predicate Numeral(s: string, n: int, sign: string, digits: string) {
    && s == sign + digits && (sign == "" || sign == "+" || sign == "-") && digits != "" && AllDigits(digits)
    && n == (if sign == "-" then -1 else 1) * DigitsValue(digits)
  }

  /** Exactly what `strconv.Atoi` takes: a numeral whose value fits in 64 bits. */
  lemma AtoiMeans(s: string, n: int)
    ensures Atoi(s) == Some(n) <==> IsInt64(n) && exists sign, digits :: Numeral(s, n, sign, digits)
  {
    if Atoi(s) == Some(n) {
      if s[0] == '-' {
        assert s == "-" + s[1..] && Numeral(s, n, "-", s[1..]);
      } else if s[0] == '+' {
        assert s == "+" + s[1..] && Numeral(s, n, "+", s[1..]);
      } else {
        assert s == "" + s && Numeral(s, n, "", s);
      }
    } else if sign, digits :| Numeral(s, n, sign, digits) {
      if sign == "" { assert s == digits && IsDigit(s[0]); } else { assert s[0] == sign[0] && s[1..] == digits; }
    }
  }

  lemma FormatInjective(m: int, n: int)
    requires Format(m) == Format(n)
    ensures m == n
  {
    ValueOfDigits(if m < 0 then -m else m);
    ValueOfDigits(if n < 0 then -n else n);
    assert m < 0 ==> Format(m)[0] == '-' && Format(m)[1..] == Digits(-m);
    assert n < 0 ==> Format(n)[0] == '-' && Format(n)[1..] == Digits(-n);
  }

  /******* Trimming *******/

  /** `unicode.IsSpace`. */
  predicate IsSpace(c: char) {
    || '\t' <= c <= '\r'
    || c in {' ', '\U{85}', '\U{A0}', '\U{1680}', '\U{2028}', '\U{2029}', '\U{202F}', '\U{205F}', '\U{3000}'}
    || '\U{2000}' <= c <= '\U{200A}'
  }

  function TrimLeft(s: string): string {
    if s != [] && IsSpace(s[0]) then TrimLeft(s[1..]) else s
  }

  function TrimRight(s: string): string {
    if s != [] && IsSpace(s[|s| - 1]) then TrimRight(s[..|s| - 1]) else s
  }

  /** `strings.TrimSpace`. */
  function TrimSpace(s: string): string { TrimRight(TrimLeft(s)) }

  predicate Trimmed(s: string) {
    s != [] ==> !IsSpace(s[0]) && !IsSpace(s[|s| - 1])
  }

  lemma {:induction false} TrimLeftShape(s: string)
    ensures |TrimLeft(s)| <= |s| && TrimLeft(s) == s[|s| - |TrimLeft(s)|..]
    ensures TrimLeft(s) != [] ==> !IsSpace(TrimLeft(s)[0])
  {
    if s != [] && IsSpace(s[0]) { TrimLeftShape(s[1..]); }
  }

  lemma {:induction false} TrimRightShape(s: string)
    ensures TrimRight(s) <= s
    ensures TrimRight(s) != [] ==> !IsSpace(TrimRight(s)[|TrimRight(s)| - 1])
  {
    if s != [] && IsSpace(s[|s| - 1]) { TrimRightShape(s[..|s| - 1]); }
  }

  /** `TrimSpace` leaves exactly the already trimmed strings alone. */
  lemma TrimSpaceFixes(s: string)
    ensures Trimmed(TrimSpace(s))
    ensures TrimSpace(s) == s <==> Trimmed(s)
  {
    TrimLeftShape(s);
    TrimRightShape(TrimLeft(s));
  }

  /******* Splitting *******/

  /** `strings.Split(s, sep)` for a one-character separator. */
  function Split<T(==)>(s: seq<T>, sep: T): (parts: seq<seq<T>>)
    ensures parts != []
  {
    if s == [] then [[]]
    else
      var rest := Split(s[1..], sep);
      if s[0] == sep then [[]] + rest else [[s[0]] + rest[0]] + rest[1..]
  }

  /** A separator-free head is split off whole. */
  lemma {:induction false} SplitHead<T>(a: seq<T>, sep: T, b: seq<T>)
    requires sep !in a
    ensures Split(a + [sep] + b, sep) == [a] + Split(b, sep)
  {
    var s := a + [sep] + b;
    if a == [] {
      assert s[1..] == b;
    } else {
      assert s[1..] == a[1..] + [sep] + b;
      SplitHead(a[1..], sep, b);
      assert [a[0]] + a[1..] == a;
    }
  }

  lemma {:induction false} SplitWhole<T>(a: seq<T>, sep: T)
    ensures |Split(a, sep)| == 1 <==> sep !in a
    ensures sep !in a ==> Split(a, sep) == [a]
  {
    if a != [] {
      SplitWhole(a[1..], sep);
      assert a == [a[0]] + a[1..];
    }
  }

  /** A separator inside the head costs at least one more part. */
  lemma {:induction false} SplitExtra<T>(a: seq<T>, sep: T, b: seq<T>)
    requires sep in a
    ensures |Split(a + [sep] + b, sep)| >= 2 + |Split(b, sep)|
  {
    var s := a + [sep] + b;
    assert s[1..] == a[1..] + [sep] + b;
    if a[0] == sep {
      if sep in a[1..] { SplitExtra(a[1..], sep, b); } else { SplitHead(a[1..], sep, b); }
    } else {
      SplitExtra(a[1..], sep, b);
    }
  }

  /** `strings.Join(parts, sep)` for a one-character separator. */
  function Glue<T>(parts: seq<seq<T>>, sep: T): seq<T> {
    if parts == [] then []
    else if |parts| == 1 then parts[0]
    else parts[0] + [sep] + Glue(parts[1..], sep)
  }

  lemma {:induction false} SplitGlue<T>(parts: seq<seq<T>>, sep: T)
    requires parts != [] && forall p :: p in parts ==> sep !in p
    ensures Split(Glue(parts, sep), sep) == parts
  {
    if |parts| == 1 {
      SplitWhole(parts[0], sep);
    } else {
      SplitGlue(parts[1..], sep);
      SplitHead(parts[0], sep, Glue(parts[1..], sep));
      assert parts == [parts[0]] + parts[1..];
    }
  }

  lemma {:induction false} GlueWithout<T>(parts: seq<seq<T>>, sep: T, x: T)
    requires x != sep && forall p :: p in parts ==> x !in p
    ensures x !in Glue(parts, sep)
  {
    if |parts| > 1 { GlueWithout(parts[1..], sep, x); }
  }

  lemma GlueLonger<T>(x: T, parts: seq<seq<T>>, sep: T)
    requires parts != []
    ensures Glue([[x] + parts[0]] + parts[1..], sep) == [x] + Glue(parts, sep)
  {
    var longer := [[x] + parts[0]] + parts[1..];
    assert longer[1..] == parts[1..];
    if |parts| > 1 {
      var rest := Glue(parts[1..], sep);
      assert ([x] + parts[0]) + [sep] == [x] + (parts[0] + [sep]);
      Reassociate([x], parts[0] + [sep], rest);
    }
  }

  lemma GlueMore<T>(parts: seq<seq<T>>, sep: T)
    requires parts != []
    ensures Glue([[]] + parts, sep) == [sep] + Glue(parts, sep)
  {
    var more: seq<seq<T>> := [[]] + parts;
    assert more[1..] == parts;
  }

  lemma {:induction false} GlueSplit<T>(s: seq<T>, sep: T)
    ensures Glue(Split(s, sep), sep) == s
  {
    if s != [] {
      var rest := Split(s[1..], sep);
      GlueSplit(s[1..], sep);
      assert s == [s[0]] + s[1..];
      if s[0] == sep { GlueMore(rest, sep); } else { GlueLonger(s[0], rest, sep); }
    }
  }

  lemma {:induction false} SplitCount<T>(s: seq<T>, sep: T)
    ensures |Split(s, sep)| == multiset(s)[sep] + 1
  {
    if s != [] {
      SplitCount(s[1..], sep);
      assert s == [s[0]] + s[1..];
      assert multiset(s) == multiset{s[0]} + multiset(s[1..]);
    }
  }

  lemma {:induction false} SplitFree<T>(s: seq<T>, sep: T, i: nat)
    requires i < |Split(s, sep)|
    ensures sep !in Split(s, sep)[i]
  {
    if s != [] {
      var rest := Split(s[1..], sep);
      if s[0] == sep {
        if i > 0 { SplitFree(s[1..], sep, i - 1); }
      } else {
        SplitFree(s[1..], sep, i);
        assert i > 0 ==> rest[1..][i - 1] == rest[i];
      }
    }
  }

  /** Splitting loses nothing: one part more than there are separators, none of them in a part. */
  lemma SplitParts<T>(s: seq<T>, sep: T)
    ensures Glue(Split(s, sep), sep) == s && |Split(s, sep)| == multiset(s)[sep] + 1
    ensures forall p :: p in Split(s, sep) ==> sep !in p
  {
    GlueSplit(s, sep);
    SplitCount(s, sep);
    forall p | p in Split(s, sep) ensures sep !in p {
      var i :| 0 <= i < |Split(s, sep)| && Split(s, sep)[i] == p;
      SplitFree(s, sep, i);
    }
  }

  /** The first separator is where the heads end. */
  lemma SameHead(x: string, y: string, sep: char, s: string, t: string)
    requires sep !in x && sep !in y && x + [sep] + s == y + [sep] + t
    ensures x == y && s == t
  {
    var l, r := x + [sep] + s, y + [sep] + t;
    assert l[|x|] == sep && r[|y|] == sep;
    assert forall i :: 0 <= i < |x| ==> l[i] == x[i];
    assert forall i :: 0 <= i < |y| ==> r[i] == y[i];
    assert |x| == |y|;
    assert l[..|x|] == x && r[..|y|] == y && l[|x| + 1..] == s && r[|y| + 1..] == t;
  }

  /******* Searching *******/

  /** `strings.Contains(s, t)`. */
  predicate Contains(s: string, t: string) {
    exists i :: 0 <= i <= |s| && OccursAt(s, t, i)
  }

  predicate OccursAt(s: string, t: string, i: int) {
    0 <= i && i + |t| <= |s| && s[i..i + |t|] == t
  }
}
