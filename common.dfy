/** Helpers shared by the whole model: optional values, Python's list indexing,
    Python's order on `str`, decimal digit strings as `int()`, `str()` and
    `str.zfill` build and read them, and the stable sort behind `list.sort(key=...)`
    and `sorted(...)`. */
module Common {

  datatype Option<+T> = None | Some(value: T)

  /** The answer to the "save it?" question every store asks in `may_save`. */
  datatype SaveAnswer = AnswerYes | AnswerNo

  // ---------------------------------------------------------------------------
  // Python list indexing

  /** The position `xs[i]` (and `xs.pop(i)`, `del xs[i]`) denotes in a list of
      length n: a negative index counts from the end, anything outside [-n, n)
      raises IndexError, which is None here. */
  function PyIndex(i: int, n: nat): (r: Option<nat>)
    ensures r.Some? <==> -(n as int) <= i < n
    ensures r.Some? ==> r.value < n && (if i >= 0 then r.value == i else r.value == n + i)
  {
    if 0 <= i < n then Some(i) else if -(n as int) <= i < 0 then Some(n + i) else None
  }

  /** `xs.pop(k)` for a valid position k: everything but the k-th element, in order. */
  function RemoveAt<T>(s: seq<T>, k: nat): (r: seq<T>)
    requires k < |s|
    ensures |r| == |s| - 1
    ensures forall i :: 0 <= i < k ==> r[i] == s[i]
    ensures forall i :: k <= i < |r| ==> r[i] == s[i + 1]
  {
    s[..k] + s[k + 1..]
  }

  // ---------------------------------------------------------------------------
  // Python's order on str

  /** Python's `a <= b` on `str`: code points compared from the left, and a proper
      prefix sorts before the longer string. */
  predicate LexLe(a: string, b: string)
    decreases |a|
  {
    |a| == 0 || (|b| > 0 && (a[0] < b[0] || (a[0] == b[0] && LexLe(a[1..], b[1..]))))
  }

  /** Python's `a < b` on `str`. */
  predicate LexLt(a: string, b: string)
  {
    !LexLe(b, a)
  }

  lemma {:induction false} LexLeReflexive(a: string)
    ensures LexLe(a, a)
    decreases |a|
  {
    if |a| > 0 {
      LexLeReflexive(a[1..]);
    }
  }

  lemma {:induction false} LexLeAntisymmetric(a: string, b: string)
    requires LexLe(a, b) && LexLe(b, a)
    ensures a == b
    decreases |a|
  {
    if |a| > 0 {
      assert |b| > 0 && a[0] == b[0];
      LexLeAntisymmetric(a[1..], b[1..]);
      assert a == [a[0]] + a[1..] && b == [b[0]] + b[1..];
    }
  }

  lemma {:induction false} LexLeTransitive(a: string, b: string, c: string)
    requires LexLe(a, b) && LexLe(b, c)
    ensures LexLe(a, c)
    decreases |a|
  {
    if |a| > 0 && a[0] == b[0] && b[0] == c[0] {
      LexLeTransitive(a[1..], b[1..], c[1..]);
    }
  }

  lemma {:induction false} LexLeTotal(a: string, b: string)
    ensures LexLe(a, b) || LexLe(b, a)
    decreases |a|
  {
    if |a| > 0 && |b| > 0 && a[0] == b[0] {
      LexLeTotal(a[1..], b[1..]);
    }
  }

  /** `<` is `<=` without equality, as for any total order. */
  lemma LexLtIsStrict(a: string, b: string)
    ensures LexLt(a, b) <==> LexLe(a, b) && a != b
  {
    LexLeTotal(a, b);
    if LexLe(a, b) && LexLe(b, a) {
      LexLeAntisymmetric(a, b);
    }
    if a == b {
      LexLeReflexive(a);
    }
  }

  lemma LexLtLeTransitive(a: string, b: string, c: string)
    requires LexLt(a, b) && LexLe(b, c)
    ensures LexLt(a, c)
  {
    if LexLe(c, a) {
      LexLeTransitive(b, c, a);
    }
  }

  // ---------------------------------------------------------------------------
  // Decimal digit strings: int(s), str(n), s.zfill(w)

  predicate IsDigit(c: char)
  {
    '0' <= c <= '9'
  }

  predicate IsDigits(s: string)
  {
    forall i :: 0 <= i < |s| ==> IsDigit(s[i])
  }

  function DigitValue(c: char): (d: nat)
    requires IsDigit(c)
    ensures d < 10
  {
    c as int - '0' as int
  }

  function DigitChar(d: nat): (c: char)
    requires d < 10
    ensures IsDigit(c) && DigitValue(c) == d
  {
    ('0' as int + d) as char
  }

  function Pow10(k: nat): (r: nat)
    ensures r >= 1
  {
    if k == 0 then 1 else 10 * Pow10(k - 1)
  }

  /** `int(s)` for a string of decimal digits (leading zeros allowed). */
  function ParseDigits(s: string): nat
    requires IsDigits(s)
  {
    if |s| == 0 then 0 else DigitValue(s[0]) * Pow10(|s| - 1) + ParseDigits(s[1..])
  }

  /** `str(n)` for n >= 0: the shortest decimal numeral, no leading zero. */
  function NatToStr(n: nat): (r: string)
    ensures |r| >= 1 && IsDigits(r)
  {
    if n < 10 then [DigitChar(n)] else NatToStr(n / 10) + [DigitChar(n % 10)]
  }

  /** `str(n)` for any int. */
  function IntToStr(n: int): (r: string)
  {
    if n < 0 then "-" + NatToStr(-n) else NatToStr(n)
  }

  function Zeros(k: nat): (r: string)
    ensures |r| == k && forall i :: 0 <= i < k ==> r[i] == '0'
  {
    if k == 0 then "" else "0" + Zeros(k - 1)
  }

  /** `s.zfill(width)`: left-padded with '0' to `width`; a leading sign stays in front. */
  function ZFill(s: string, width: nat): (r: string)
  {
    if |s| >= width then s
    else if |s| > 0 && (s[0] == '-' || s[0] == '+') then [s[0]] + Zeros(width - |s|) + s[1..]
    else Zeros(width - |s|) + s
  }

  /** `f"{n:05d}"`, the frame-name format, which equals `str(n).zfill(5)`. */
  function FrameString(n: int): string
  {
    ZFill(IntToStr(n), 5)
  }

  lemma {:induction false} ParseDigitsBound(s: string)
    requires IsDigits(s)
    ensures ParseDigits(s) < Pow10(|s|)
    decreases |s|
  {
    if |s| > 0 {
      ParseDigitsBound(s[1..]);
      var d, p := DigitValue(s[0]), Pow10(|s| - 1);
      assert ParseDigits(s) == d * p + ParseDigits(s[1..]);
      MulLeft(d, 9, p);
      assert Pow10(|s|) == 10 * p;
    }
  }

  lemma MulLeft(a: nat, b: nat, c: nat)
    requires a <= b
    ensures a * c <= b * c
  {
  }

  lemma ScaleByTen(d: nat, p: nat, rest: nat)
    ensures d * (10 * p) + rest * 10 == (d * p + rest) * 10
  {
  }

  lemma {:induction false} ParseDigitsAppend(s: string, c: char)
    requires IsDigits(s) && IsDigit(c)
    ensures IsDigits(s + [c])
    ensures ParseDigits(s + [c]) == ParseDigits(s) * 10 + DigitValue(c)
    decreases |s|
  {
    var t := s + [c];
    assert forall i :: 0 <= i < |t| ==> IsDigit(t[i]) by {
      forall i | 0 <= i < |t| ensures IsDigit(t[i]) {
        if i < |s| { assert t[i] == s[i]; }
      }
    }
    if |s| > 0 {
      assert t[0] == s[0] && t[1..] == s[1..] + [c];
      ParseDigitsAppend(s[1..], c);
      var d, p, rest := DigitValue(s[0]), Pow10(|s| - 1), ParseDigits(s[1..]);
      assert Pow10(|t| - 1) == 10 * p;
      assert ParseDigits(t) == d * (10 * p) + (rest * 10 + DigitValue(c));
      ScaleByTen(d, p, rest);
      assert ParseDigits(s) == d * p + rest;
    } else {
      assert t[1..] == [];
    }
  }

  /** int(str(n)) == n. */
  lemma {:induction false} ParseNatToStr(n: nat)
    ensures ParseDigits(NatToStr(n)) == n
    decreases n
  {
    if n >= 10 {
      ParseNatToStr(n / 10);
      ParseDigitsAppend(NatToStr(n / 10), DigitChar(n % 10));
    } else {
      assert NatToStr(n)[1..] == [];
    }
  }

  /** A numeral without a leading zero is exactly str() of its value. */
  lemma {:induction false} NatToStrOfCanonical(s: string)
    requires IsDigits(s) && |s| >= 1 && s[0] != '0'
    ensures NatToStr(ParseDigits(s)) == s
    decreases |s|
  {
    var last := s[|s| - 1];
    var front := s[..|s| - 1];
    assert s == front + [last];
    assert IsDigits(front) by {
      forall i | 0 <= i < |front| ensures IsDigit(front[i]) {
        assert front[i] == s[i];
      }
    }
    ParseDigitsAppend(front, last);
    DigitRoundTrip(last);
    var n := ParseDigits(s);
    DivModDigit(ParseDigits(front), DigitValue(last));
    if |s| == 1 {
      assert ParseDigits(front) == 0;
    } else {
      assert front[0] == s[0];
      LeadingDigitPositive(front);
      NatToStrOfCanonical(front);
      assert NatToStr(n) == NatToStr(n / 10) + [DigitChar(n % 10)];
    }
  }

  lemma DigitRoundTrip(c: char)
    requires IsDigit(c)
    ensures DigitChar(DigitValue(c)) == c
  {
  }

  lemma DivModDigit(a: nat, d: nat)
    requires d < 10
    ensures (a * 10 + d) / 10 == a && (a * 10 + d) % 10 == d
  {
  }

  /** A numeral whose first digit is not '0' has a positive value. */
  lemma LeadingDigitPositive(s: string)
    requires IsDigits(s) && |s| >= 1 && s[0] != '0'
    ensures ParseDigits(s) >= 1
  {
    var d, p := DigitValue(s[0]), Pow10(|s| - 1);
    MulLeft(1, d, p);
  }

  lemma {:induction false} NatToStrLength(n: nat, k: nat)
    requires k >= 1 && n < Pow10(k)
    ensures |NatToStr(n)| <= k
    decreases k
  {
    if n >= 10 {
      assert k >= 2;
      NatToStrLength(n / 10, k - 1);
    }
  }

  lemma {:induction false} ParseLeadingZeros(k: nat, s: string)
    requires IsDigits(s)
    ensures IsDigits(Zeros(k) + s)
    ensures ParseDigits(Zeros(k) + s) == ParseDigits(s)
    decreases k
  {
    var t := Zeros(k) + s;
    assert forall i | 0 <= i < |t| :: IsDigit(t[i]) by {
      forall i | 0 <= i < |t| ensures IsDigit(t[i]) {
        if i >= k { assert t[i] == s[i - k]; }
      }
    }
    if k > 0 {
      assert t[0] == '0' && t[1..] == Zeros(k - 1) + s;
      ParseLeadingZeros(k - 1, s);
      assert DigitValue(t[0]) == 0;
      assert ParseDigits(t) == ParseDigits(t[1..]);
    } else {
      assert t == s;
    }
  }

  /** For digit strings of one width, Python's string order is numeric order;
      this is why 5-digit zero-padded frame names sort like frame numbers. */
  lemma {:induction false} DigitsOrderIsNumeric(a: string, b: string)
    requires IsDigits(a) && IsDigits(b) && |a| == |b|
    ensures LexLe(a, b) <==> ParseDigits(a) <= ParseDigits(b)
    decreases |a|
  {
    if |a| > 0 {
      DigitsOrderIsNumeric(a[1..], b[1..]);
      ParseDigitsBound(a[1..]);
      ParseDigitsBound(b[1..]);
      if a[0] < b[0] {
        assert LexLe(a, b);
        LeadingDigitDecides(DigitValue(a[0]), DigitValue(b[0]), Pow10(|a| - 1), ParseDigits(a[1..]), ParseDigits(b[1..]));
      } else if b[0] < a[0] {
        assert !LexLe(a, b);
        LeadingDigitDecides(DigitValue(b[0]), DigitValue(a[0]), Pow10(|a| - 1), ParseDigits(b[1..]), ParseDigits(a[1..]));
      } else {
        assert LexLe(a, b) == LexLe(a[1..], b[1..]);
      }
    }
  }

  lemma LeadingDigitDecides(da: nat, db: nat, p: nat, ra: nat, rb: nat)
    requires da < db && ra < p
    ensures da * p + ra < db * p + rb
  {
    MulStep(da, db, p);
  }

  lemma {:induction false} MulStep(x: nat, y: nat, p: nat)
    requires x < y
    ensures x * p + p <= y * p
    decreases p
  {
    if p > 0 {
      MulStep(x, y, p - 1);
      assert x * p == x * (p - 1) + x;
      assert y * p == y * (p - 1) + y;
    }
  }

  /** The frame name of n in [0, 100000) is 5 digits long and reads back as n. */
  lemma FrameStringDigits(n: nat)
    requires n < 100000
    ensures |FrameString(n)| == 5 && IsDigits(FrameString(n))
    ensures ParseDigits(FrameString(n)) == n
  {
    var t := NatToStr(n);
    NatToStrLength(n, 5);
    ParseNatToStr(n);
    ParseLeadingZeros(5 - |t|, t);
    assert FrameString(n) == Zeros(5 - |t|) + t;
  }

  /** Comparing 5-digit frame names as strings is comparing frame numbers. */
  lemma FrameStringOrder(n: nat, m: nat)
    requires n < 100000 && m < 100000
    ensures LexLe(FrameString(n), FrameString(m)) <==> n <= m
  {
    FrameStringDigits(n);
    FrameStringDigits(m);
    DigitsOrderIsNumeric(FrameString(n), FrameString(m));
  }

  /** `str(n).zfill(w)` for n >= 0 is all digits with value n, as wide as the wider of
      `str(n)` and w, and ends in `str(n)`: padding never cuts digits off. */
  lemma ZFillNat(n: nat, w: nat)
    ensures var x := NatToStr(n); var r := ZFill(x, w);
      IsDigits(r) && ParseDigits(r) == n && |r| == (if |x| >= w then |x| else w) &&
      r[|r| - |x|..] == x
  {
    var x := NatToStr(n);
    ParseNatToStr(n);
    assert x[0] != '-' && x[0] != '+' by { assert IsDigit(x[0]); }
    if |x| < w {
      ParseLeadingZeros(w - |x|, x);
      var r := Zeros(w - |x|) + x;
      assert r[|r| - |x|..] == x;
    }
  }

  /** For n < 0 the sign stays in front and the digits are padded behind it. */
  lemma ZFillNegative(n: int, w: nat)
    requires n < 0 && w >= 1
    ensures var r := ZFill(IntToStr(n), w);
      |r| >= 1 && r[0] == '-' && r[1..] == ZFill(NatToStr(-n), w - 1)
  {
    var x := NatToStr(-n);
    assert IsDigit(x[0]);
    var s := "-" + x;
    assert s[0] == '-' && s[1..] == x;
    if |s| < w {
      assert ZFill(s, w) == [s[0]] + Zeros(w - |s|) + s[1..];
      assert ZFill(s, w)[1..] == Zeros(w - 1 - |x|) + x;
    }
  }

  /** `f"{n:05d}"`: at least five characters; for n >= 0 all digits with value n, and
      for n < 0 a minus sign followed by the digits of -n. */
  lemma FrameStringValue(n: int)
    ensures |FrameString(n)| >= 5
    ensures n >= 0 ==> IsDigits(FrameString(n)) && ParseDigits(FrameString(n)) == n
    ensures n >= 0 && n < 100000 ==> |FrameString(n)| == 5
    ensures n < 0 ==> (FrameString(n)[0] == '-' &&
      IsDigits(FrameString(n)[1..]) && ParseDigits(FrameString(n)[1..]) == -n)
  {
    if n >= 0 {
      ZFillNat(n, 5);
      if n < 100000 { NatToStrLength(n, 5); }
    } else {
      ZFillNegative(n, 5);
      ZFillNat(-n, 4);
    }
  }

  /** Padding an unsigned numeral one place wider adds one '0' in front. */
  lemma ZFillPadOne(x: string, n: nat)
    requires 1 <= |x| <= n && IsDigit(x[0])
    ensures ZFill(x, n + 1) == "0" + ZFill(x, n)
  {
    ZFillUnsigned(x, n);
    ZFillUnsigned(x, n + 1);
    var z := Zeros(n - |x|);
    assert Zeros(n + 1 - |x|) == "0" + z;
    assert ("0" + z) + x == "0" + (z + x);
  }

  /** An unsigned string is padded with exactly the missing zeros. */
  lemma ZFillUnsigned(x: string, w: nat)
    requires 1 <= |x| <= w && IsDigit(x[0])
    ensures ZFill(x, w) == Zeros(w - |x|) + x
  {
    if |x| == w {
      assert Zeros(0) + x == x;
    }
  }

  /** `str(int(s)).zfill(len(s)) == s` for every all-digit s whose value is not 0. */
  lemma {:induction false} ZFillOfParse(s: string)
    requires IsDigits(s) && ParseDigits(s) != 0
    ensures ZFill(NatToStr(ParseDigits(s)), |s|) == s
    decreases |s|
  {
    var x := NatToStr(ParseDigits(s));
    if s[0] == '0' {
      var t := s[1..];
      assert ParseDigits(s) == ParseDigits(t) by { assert DigitValue(s[0]) == 0; }
      ZFillOfParse(t);
      ParseDigitsBound(t);
      NatToStrLength(ParseDigits(s), |t|);
      ZFillPadOne(x, |t|);
      assert s == [s[0]] + t;
    } else {
      NatToStrOfCanonical(s);
    }
  }

  // ---------------------------------------------------------------------------
  // Stable sort by a string key (Python's list.sort(key=...) and sorted(...))

  predicate SortedBy<T>(s: seq<T>, key: T -> string)
  {
    forall i, j :: 0 <= i < j < |s| ==> LexLe(key(s[i]), key(s[j]))
  }

  /** Inserts x in front of the first element whose key is not below key(x). */
  function InsertByKey<T>(x: T, s: seq<T>, key: T -> string): (r: seq<T>)
    ensures |r| == |s| + 1
  {
    if |s| == 0 then [x]
    else if LexLe(key(x), key(s[0])) then [x] + s
    else
      assert s == [s[0]] + s[1..];
      [s[0]] + InsertByKey(x, s[1..], key)
  }

  /** Stable insertion sort: elements with equal keys keep their relative order. */
  function SortByKey<T>(s: seq<T>, key: T -> string): (r: seq<T>)
    ensures |r| == |s|
  {
    if |s| == 0 then []
    else
      assert s == [s[0]] + s[1..];
      InsertByKey(s[0], SortByKey(s[1..], key), key)
  }

  /** Inserting keeps every element and adds x once. */
  lemma {:induction false} InsertByKeyPermutes<T>(x: T, s: seq<T>, key: T -> string)
    ensures multiset(InsertByKey(x, s, key)) == multiset(s) + multiset{x}
    decreases |s|
  {
    if |s| > 0 {
      if LexLe(key(x), key(s[0])) {
        assert InsertByKey(x, s, key) == [x] + s;
      } else {
        InsertByKeyPermutes(x, s[1..], key);
        assert s == [s[0]] + s[1..];
        assert InsertByKey(x, s, key) == [s[0]] + InsertByKey(x, s[1..], key);
      }
    }
  }

  /** The sorted list is a permutation of the input. */
  lemma {:induction false} SortByKeyPermutes<T>(s: seq<T>, key: T -> string)
    ensures multiset(SortByKey(s, key)) == multiset(s)
    decreases |s|
  {
    if |s| > 0 {
      SortByKeyPermutes(s[1..], key);
      InsertByKeyPermutes(s[0], SortByKey(s[1..], key), key);
      assert s == [s[0]] + s[1..];
    }
  }

  /** A lower bound of x and of every element of s bounds every element after the
      insertion. */
  lemma {:induction false} InsertByKeyBound<T>(x: T, s: seq<T>, key: T -> string, b: string)
    requires LexLe(b, key(x)) && forall i :: 0 <= i < |s| ==> LexLe(b, key(s[i]))
    ensures forall i :: 0 <= i < |InsertByKey(x, s, key)| ==> LexLe(b, key(InsertByKey(x, s, key)[i]))
    decreases |s|
  {
    var r := InsertByKey(x, s, key);
    if |s| == 0 {
      assert r == [x];
    } else if LexLe(key(x), key(s[0])) {
      assert r == [x] + s;
      assert forall i :: 0 < i < |r| ==> r[i] == s[i - 1];
    } else {
      InsertByKeyBound(x, s[1..], key, b);
      var t := InsertByKey(x, s[1..], key);
      assert r == [s[0]] + t;
      assert forall i :: 0 < i < |r| ==> r[i] == t[i - 1];
    }
  }

  lemma {:induction false} InsertByKeySorted<T>(x: T, s: seq<T>, key: T -> string)
    requires SortedBy(s, key)
    ensures SortedBy(InsertByKey(x, s, key), key)
    decreases |s|
  {
    if |s| > 0 {
      if LexLe(key(x), key(s[0])) {
        var r := [x] + s;
        forall i, j | 0 <= i < j < |r| ensures LexLe(key(r[i]), key(r[j])) {
          if i == 0 && j > 1 {
            LexLeTransitive(key(x), key(s[0]), key(s[j - 1]));
          }
        }
      } else {
        LexLeTotal(key(x), key(s[0]));
        InsertByKeySorted(x, s[1..], key);
        var tail := InsertByKey(x, s[1..], key);
        assert forall i :: 0 <= i < |s[1..]| ==> LexLe(key(s[0]), key(s[1..][i])) by {
          forall i | 0 <= i < |s[1..]| ensures LexLe(key(s[0]), key(s[1..][i])) {
            assert s[1..][i] == s[i + 1];
          }
        }
        InsertByKeyBound(x, s[1..], key, key(s[0]));
        var r := [s[0]] + tail;
        forall i, j | 0 <= i < j < |r| ensures LexLe(key(r[i]), key(r[j])) {
          if i > 0 {
            assert r[i] == tail[i - 1] && r[j] == tail[j - 1];
          } else {
            assert r[j] == tail[j - 1];
          }
        }
      }
    }
  }

  lemma {:induction false} SortByKeySorted<T>(s: seq<T>, key: T -> string)
    ensures SortedBy(SortByKey(s, key), key)
    decreases |s|
  {
    if |s| > 0 {
      SortByKeySorted(s[1..], key);
      InsertByKeySorted(s[0], SortByKey(s[1..], key), key);
    }
  }

  /** Sorting a list that is already in order leaves it as it is. */
  lemma {:induction false} SortByKeyOfSorted<T>(s: seq<T>, key: T -> string)
    requires SortedBy(s, key)
    ensures SortByKey(s, key) == s
    decreases |s|
  {
    if |s| > 0 {
      assert SortedBy(s[1..], key);
      SortByKeyOfSorted(s[1..], key);
      assert s == [s[0]] + s[1..];
    }
  }

  /** The elements of s whose key is k, in their order in s. */
  function WithKey<T>(s: seq<T>, key: T -> string, k: string): (r: seq<T>)
    ensures |r| <= |s|
    ensures forall i :: 0 <= i < |r| ==> key(r[i]) == k
  {
    if |s| == 0 then []
    else (if key(s[0]) == k then [s[0]] else []) + WithKey(s[1..], key, k)
  }

  /** Inserting x places it in front of every element with the same key. */
  lemma {:induction false} InsertByKeyWithKey<T>(x: T, s: seq<T>, key: T -> string, k: string)
    ensures WithKey(InsertByKey(x, s, key), key, k) ==
            (if key(x) == k then [x] else []) + WithKey(s, key, k)
    decreases |s|
  {
    if |s| > 0 && !LexLe(key(x), key(s[0])) {
      LexLeReflexive(key(x));
      assert key(s[0]) != key(x);
      InsertByKeyWithKey(x, s[1..], key, k);
      var t := InsertByKey(x, s[1..], key);
      assert InsertByKey(x, s, key) == [s[0]] + t;
      assert ([s[0]] + t)[1..] == t;
    } else if |s| > 0 {
      assert ([x] + s)[1..] == s;
    }
  }

  /** The sort is stable: for every key, the elements with that key come out in
      the order they went in. */
  lemma {:induction false} SortByKeyStable<T>(s: seq<T>, key: T -> string, k: string)
    ensures WithKey(SortByKey(s, key), key, k) == WithKey(s, key, k)
    decreases |s|
  {
    if |s| > 0 {
      SortByKeyStable(s[1..], key, k);
      InsertByKeyWithKey(s[0], SortByKey(s[1..], key), key, k);
    }
  }

  // ---------------------------------------------------------------------------
  // Paths and frame names

  /** `str(x)` of a stored path, which is None until a file is loaded. */
  function PathString(p: Option<string>): (r: string)
    ensures p.Some? ==> r == p.value
  {
    if p.None? then "None" else p.value
  }

  /** `frame_names()` of both label stores: `f'{i:05d}.jpg'` for every extracted frame i. */
  function FrameNames(count: nat): (r: seq<string>)
    ensures |r| == count
    ensures forall i :: 0 <= i < count ==> r[i] == FrameString(i) + ".jpg"
  {
    seq(count, i => FrameString(i) + ".jpg")
  }

  /** For up to 100000 frames the names are distinct and come out in string order, so
      the frame numbers can be read back from them. */
  lemma FrameNamesOrdered(count: nat, i: nat, j: nat)
    requires count <= 100000 && i < j < count
    ensures LexLt(FrameNames(count)[i], FrameNames(count)[j])
    ensures ParseDigits(FrameNames(count)[i][..5]) == i
  {
    var a, b := FrameString(i), FrameString(j);
    FrameStringDigits(i);
    FrameStringDigits(j);
    FrameStringOrder(j, i);
    LexLeCommonSuffix(b, a, ".jpg");
    assert (a + ".jpg")[..5] == a;
  }

  /** Appending the same suffix to two strings of equal length keeps their order. */
  lemma {:induction false} LexLeCommonSuffix(a: string, b: string, t: string)
    requires |a| == |b|
    ensures LexLe(a + t, b + t) <==> (a == b || LexLe(a, b))
    decreases |a|
  {
    if |a| == 0 {
      assert a + t == t && b + t == t;
      LexLeReflexive(t);
    } else {
      assert (a + t)[1..] == a[1..] + t && (b + t)[1..] == b[1..] + t;
      assert (a + t)[0] == a[0] && (b + t)[0] == b[0];
      LexLeCommonSuffix(a[1..], b[1..], t);
      if a[1..] == b[1..] {
        LexLeReflexive(a[1..]);
        if a[0] == b[0] {
          assert a == [a[0]] + a[1..] && b == [b[0]] + b[1..];
        }
      }
    }
  }
}
