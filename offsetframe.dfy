/** tools/offset_frame_number.py: shifts every frame number of a scene file by an
    offset, keeping each frame string's width, except frames numbered 0. */
module OffsetFrameNumber {
  import opened Common
  import opened SceneData

  // ---------------------------------------------------------------------------
  // Python's `int(s)` on a str, for ASCII text

  /** A character `int()` strips around the numeral: space, '\t' to '\r', and the
      separators 0x1c to 0x1f. */
  predicate IsSpace(c: char)
  {
    c == ' ' || 9 <= c as int <= 13 || 28 <= c as int <= 31
  }

  /** s without its leading whitespace. */
  function TrimStart(s: string): (r: string)
    ensures |r| <= |s|
  {
    if |s| > 0 && IsSpace(s[0]) then TrimStart(s[1..]) else s
  }

  /** s without its trailing whitespace. */
  function TrimEnd(s: string): (r: string)
    ensures |r| <= |s|
  {
    if |s| > 0 && IsSpace(s[|s| - 1]) then TrimEnd(s[..|s| - 1]) else s
  }

  /** `s.strip()`. */
  function Strip(s: string): string
  {
    TrimEnd(TrimStart(s))
  }

  /** Digits, with single underscores allowed between two digits. */
  predicate IsDigitGroups(b: string)
    decreases |b|
  {
    |b| > 0 && IsDigit(b[0]) &&
    (|b| == 1 || if b[1] == '_' then IsDigitGroups(b[2..]) else IsDigitGroups(b[1..]))
  }

  /** The digits of b with the underscores dropped. */
  function Underscoreless(b: string): (r: string)
    requires IsDigitGroups(b)
    ensures |r| > 0 && IsDigits(r)
    decreases |b|
  {
    if |b| == 1 then b
    else if b[1] == '_' then [b[0]] + Underscoreless(b[2..])
    else [b[0]] + Underscoreless(b[1..])
  }

  /** A non-empty run of digits has no underscores to drop. */
  lemma {:induction false} DigitsAreGroups(b: string)
    requires |b| > 0 && IsDigits(b)
    ensures IsDigitGroups(b) && Underscoreless(b) == b
    decreases |b|
  {
    if |b| > 1 {
      assert IsDigits(b[1..]) by {
        forall i | 0 <= i < |b[1..]| ensures IsDigit(b[1..][i]) { assert b[1..][i] == b[i + 1]; }
      }
      DigitsAreGroups(b[1..]);
      assert b == [b[0]] + b[1..];
    }
  }

  /** The integer a stripped text denotes: an optional sign, then digit groups. */
  function SignedValue(t: string): Option<int>
  {
    var signed := |t| > 0 && (t[0] == '-' || t[0] == '+');
    var b := if signed then t[1..] else t;
    if !IsDigitGroups(b) then None
    else
      var v: int := ParseDigits(Underscoreless(b));
      Some(if signed && t[0] == '-' then -v else v)
  }

  /** `int(s)`: surrounding whitespace stripped, an optional sign, then digits in groups
      joined by single underscores; None where Python raises ValueError. */
  function PyInt(s: string): Option<int>
  {
    SignedValue(Strip(s))
  }

  /** Neither end of t is whitespace, so stripping keeps it. */
  lemma StripKeeps(t: string)
    requires |t| > 0 && !IsSpace(t[0]) && !IsSpace(t[|t| - 1])
    ensures Strip(t) == t
  {
    assert TrimStart(t) == t;
  }

  /** A non-empty string of digits reads as its decimal value. */
  lemma PyIntOfDigits(s: string)
    requires |s| > 0 && IsDigits(s)
    ensures PyInt(s) == Some(ParseDigits(s))
  {
    assert IsDigit(s[0]) && IsDigit(s[|s| - 1]);
    StripKeeps(s);
    DigitsAreGroups(s);
  }

  /** A minus sign followed by digits reads as the negated value. */
  lemma PyIntOfNegative(d: string)
    requires |d| > 0 && IsDigits(d)
    ensures PyInt("-" + d) == Some(-(ParseDigits(d) as int))
  {
    var t := "-" + d;
    assert t[0] == '-' && t[|t| - 1] == d[|d| - 1] && IsDigit(d[|d| - 1]);
    StripKeeps(t);
    assert t[1..] == d;
    DigitsAreGroups(d);
    SignedMinus(t);
  }

  /** A stripped text made of a minus sign and digit groups. */
  lemma SignedMinus(t: string)
    requires |t| > 1 && t[0] == '-' && IsDigitGroups(t[1..])
    ensures SignedValue(t) == Some(-(ParseDigits(Underscoreless(t[1..])) as int))
  {
  }

  /** Python accepts more than plain digits: a sign, surrounding blanks and single
      underscores between digits. */
  lemma PyIntAccepts()
    ensures PyInt("+5") == Some(5) && PyInt("-3") == Some(-3)
    ensures PyInt(" 7") == Some(7) && PyInt("1_0") == Some(10)
  {
    PyIntSigned("+5");
    PyIntSigned("-3");
    PyIntBlank();
    PyIntUnderscore();
  }

  lemma PyIntBlank()
    ensures PyInt(" 7") == Some(7)
  {
    assert Strip(" 7") == "7" by {
      assert " 7"[1..] == "7";
      assert TrimStart(" 7") == "7";
    }
    PyIntOfDigits("7");
  }

  lemma PyIntUnderscore()
    ensures PyInt("1_0") == Some(10)
  {
    StripKeeps("1_0");
    assert "1_0"[2..] == "0";
    assert IsDigitGroups("1_0");
    assert Underscoreless("1_0") == "10";
    assert ParseDigits("10") == 10 by { assert "10"[1..] == "0"; }
  }

  /** Doubled or leading underscores, empty text and a bare sign raise ValueError. */
  lemma PyIntRejects()
    ensures PyInt("1__0").None? && PyInt("_1").None? && PyInt("").None? && PyInt("-").None?
  {
    StripKeeps("1__0");
    assert !IsDigitGroups("1__0") by { assert "1__0"[2..] == "_0"; }
    StripKeeps("_1");
    assert Strip("") == "";
    assert Strip("-") == "-";
    assert "-"[1..] == "";
  }

  /** A sign and one digit. */
  lemma PyIntSigned(t: string)
    requires |t| == 2 && (t[0] == '+' || t[0] == '-') && IsDigit(t[1])
    ensures PyInt(t) == Some(if t[0] == '-' then -(DigitValue(t[1]) as int) else DigitValue(t[1]))
  {
    StripKeeps(t);
    var b := t[1..];
    assert b == [t[1]] && b[1..] == [];
    DigitsAreGroups(b);
    assert ParseDigits(b) == DigitValue(t[1]);
  }

  /** A frame that `int()` reads as a numeral of plain digits. */
  predicate IsNumeral(s: string)
  {
    |s| > 0 && IsDigits(s)
  }

  /** `str(int(s) + offset).zfill(len(s))` for a frame s whose value is not 0. */
  function NewFrame(s: string, offset: int): string
    requires PyInt(s).Some? && PyInt(s).value != 0
  {
    ZFill(IntToStr(PyInt(s).value + offset), |s|)
  }

  /** `int()` reads every new frame back as the old value plus the offset, whatever its
      sign, and the new frame is at least as wide as the old one. */
  lemma NewFrameRoundTrip(s: string, offset: int)
    requires PyInt(s).Some? && PyInt(s).value != 0
    ensures PyInt(NewFrame(s, offset)) == Some(PyInt(s).value + offset)
    ensures |NewFrame(s, offset)| >= |s|
  {
    var n := PyInt(s).value + offset;
    if n >= 0 {
      ZFillNatRoundTrip(n, |s|);
    } else {
      ZFillNegativeRoundTrip(n, |s|);
    }
  }

  /** `int(str(n).zfill(w)) == n` for n >= 0. */
  lemma ZFillNatRoundTrip(n: nat, w: nat)
    ensures PyInt(ZFill(IntToStr(n), w)) == Some(n) && |ZFill(IntToStr(n), w)| >= w
  {
    ZFillNat(n, w);
    var r := ZFill(NatToStr(n), w);
    assert |r| > 0;
    PyIntOfDigits(r);
  }

  /** `int(str(n).zfill(w)) == n` for n < 0: the zeros go after the sign. */
  lemma ZFillNegativeRoundTrip(n: int, w: nat)
    requires n < 0
    ensures PyInt(ZFill(IntToStr(n), w)) == Some(n) && |ZFill(IntToStr(n), w)| >= w
  {
    var x := NatToStr(-n);
    var t := "-" + x;
    assert IntToStr(n) == t;
    ParseNatToStr(-n);
    if |t| >= w {
      assert ZFill(t, w) == t;
      PyIntOfNegative(x);
    } else {
      var z := Zeros(w - |t|);
      assert t[0] == '-' && t[1..] == x;
      assert ZFill(t, w) == "-" + (z + x);
      ParseLeadingZeros(w - |t|, x);
      PyIntOfNegative(z + x);
    }
  }

  /** For a plain numeral and a non-negative result the new frame is all digits, has the
      shifted value, keeps at least the old width, and ends in the full numeral `str(n)`:
      the width is never cut down. */
  lemma NewFrameValue(s: string, offset: int)
    requires IsNumeral(s) && ParseDigits(s) != 0 && ParseDigits(s) + offset >= 0
    ensures PyInt(s) == Some(ParseDigits(s))
    ensures var r := NewFrame(s, offset); var x := NatToStr(ParseDigits(s) + offset);
      IsDigits(r) && ParseDigits(r) == ParseDigits(s) + offset &&
      |r| >= |s| && |r| >= |x| && r[|r| - |x|..] == x
  {
    PyIntOfDigits(s);
    ZFillNat(ParseDigits(s) + offset, |s|);
  }

  /** With offset 0 every plain numeral comes back unchanged. */
  lemma NewFrameByZero(s: string)
    requires IsNumeral(s) && ParseDigits(s) != 0
    ensures PyInt(s) == Some(ParseDigits(s)) && NewFrame(s, 0) == s
  {
    PyIntOfDigits(s);
    ZFillOfParse(s);
  }

  /** A frame with a sign or blanks is rewritten even by offset 0: "+5" becomes "05". */
  lemma NewFrameNormalises()
    ensures PyInt("+5") == Some(5) && NewFrame("+5", 0) == "05"
  {
    PyIntAccepts();
    assert IntToStr(5) == "5" by { assert DigitChar(5) == '5'; }
    assert Zeros(1) == "0";
  }

  /** One entry after the rule: a frame of value 0 is skipped, any other gets its new
      frame and keeps everything else. */
  function RenumberEntry<T>(x: T, frame: T -> string, withFrame: (T, string) -> T, offset: int): T
    requires PyInt(frame(x)).Some?
  {
    var s := frame(x);
    if PyInt(s).value == 0 then x else withFrame(x, NewFrame(s, offset))
  }

  /** Every frame of the list is text `int()` accepts. */
  predicate AllInt<T>(l: seq<T>, frame: T -> string)
  {
    forall i :: 0 <= i < |l| ==> PyInt(frame(l[i])).Some?
  }

  predicate AllIntMap<T>(m: map<string, seq<T>>, frame: T -> string)
  {
    forall k :: k in m ==> AllInt(m[k], frame)
  }

  /** Every frame of every list is a plain numeral. */
  predicate AllNumeralMap<T>(m: map<string, seq<T>>, frame: T -> string)
  {
    forall k, i :: k in m && 0 <= i < |m[k]| ==> IsNumeral(frame(m[k][i]))
  }

  /** Plain numerals are accepted by `int()`. */
  lemma NumeralsAreInts<T>(m: map<string, seq<T>>, frame: T -> string)
    requires AllNumeralMap(m, frame)
    ensures AllIntMap(m, frame)
  {
    forall k, i | k in m && 0 <= i < |m[k]| ensures PyInt(frame(m[k][i])).Some? {
      PyIntOfDigits(frame(m[k][i]));
    }
  }

  function RenumberList<T>(l: seq<T>, frame: T -> string, withFrame: (T, string) -> T, offset: int): (r: seq<T>)
    requires AllInt(l, frame)
    ensures |r| == |l|
  {
    seq(|l|, i requires 0 <= i < |l| => RenumberEntry(l[i], frame, withFrame, offset))
  }

  function RenumberMap<T>(m: map<string, seq<T>>, frame: T -> string, withFrame: (T, string) -> T, offset: int)
    : (r: map<string, seq<T>>)
    requires AllIntMap(m, frame)
    ensures r.Keys == m.Keys
  {
    map k | k in m :: RenumberList(m[k], frame, withFrame, offset)
  }

  function SceneFrame(sc: Scene): string { sc.frame }
  function WithSceneFrame(sc: Scene, f: string): Scene { sc.(frame := f) }
  function DifficultFrameOf(d: DifficultFrame): string { d.frame }
  function WithDifficultFrame(d: DifficultFrame, f: string): DifficultFrame { d.(frame := f) }

  /** The document `main` writes back, or None when it raises instead: a frame `int()`
      rejects (ValueError) or a file without `difficult_frames` (KeyError). */
  function Renumbered(doc: SceneDocument, offset: int): Option<SceneDocument>
  {
    if doc.difficultFrames.None? || !AllIntMap(doc.scenes, SceneFrame)
       || !AllIntMap(doc.difficultFrames.value, DifficultFrameOf) then None
    else Some(doc.(scenes := RenumberMap(doc.scenes, SceneFrame, WithSceneFrame, offset),
                   difficultFrames := Some(RenumberMap(doc.difficultFrames.value, DifficultFrameOf, WithDifficultFrame, offset))))
  }

  /** One of the two loops of `main`: every entry of every list of the map is rewritten
      in place; the first frame `int()` rejects raises. */
  method RenumberLists<T>(m: map<string, seq<T>>, frame: T -> string, withFrame: (T, string) -> T, offset: int)
    returns (ok: bool, r: map<string, seq<T>>)
    ensures ok <==> AllIntMap(m, frame)
    ensures ok ==> r == RenumberMap(m, frame, withFrame, offset)
  {
    r := m;
    var keys := m.Keys;
    while keys != {}
      invariant keys <= m.Keys && r.Keys == m.Keys
      invariant forall k :: k in m && k !in keys ==>
        AllInt(m[k], frame) && r[k] == RenumberList(m[k], frame, withFrame, offset)
      decreases keys
    {
      var k :| k in keys;
      var list := m[k];
      for i := 0 to |list|
        invariant |list| == |m[k]|
        invariant forall j :: 0 <= j < i ==>
          PyInt(frame(m[k][j])).Some? && list[j] == RenumberEntry(m[k][j], frame, withFrame, offset)
        invariant forall j :: i <= j < |list| ==> list[j] == m[k][j]
      {
        var s := frame(list[i]);
        var v := PyInt(s);
        if v.None? {
          ok := false;
          return;
        }
        var n := v.value;
        if n == 0 {
          continue;
        }
        list := list[i := withFrame(list[i], ZFill(IntToStr(n + offset), |s|))];
      }
      assert list == RenumberList(m[k], frame, withFrame, offset);
      r := r[k := list];
      keys := keys - {k};
    }
    ok := true;
    assert r == RenumberMap(m, frame, withFrame, offset);
  }

  /** `main` on an in-memory scene file: the scenes loop, then the difficult-frames loop;
      ok is false where Python raises and nothing is written. */
  method RenumberDocument(doc: SceneDocument, offset: int) returns (ok: bool, out: SceneDocument)
    ensures ok <==> Renumbered(doc, offset).Some?
    ensures ok ==> out == Renumbered(doc, offset).value
  {
    out := doc;
    var scenesOk, scenes := RenumberLists(doc.scenes, SceneFrame, WithSceneFrame, offset);
    if !scenesOk {
      ok := false;
      return;
    }
    if doc.difficultFrames.None? {
      ok := false;
      return;
    }
    var framesOk, frames := RenumberLists(doc.difficultFrames.value, DifficultFrameOf, WithDifficultFrame, offset);
    if !framesOk {
      ok := false;
      return;
    }
    ok := true;
    out := doc.(scenes := scenes, difficultFrames := Some(frames));
  }

  /** Every scene and difficult frame of every lot follows the rule: zero frames stay,
      the others move by the offset; labels, flags, list lengths, the lot keys and the
      rest of the document are untouched. */
  lemma RenumberedEntries(doc: SceneDocument, offset: int)
    requires Renumbered(doc, offset).Some?
    ensures var r := Renumbered(doc, offset).value;
      r.version == doc.version && r.videoPath == doc.videoPath && r.lots == doc.lots &&
      r.scenes.Keys == doc.scenes.Keys && r.difficultFrames.Some? &&
      r.difficultFrames.value.Keys == doc.difficultFrames.value.Keys &&
      (forall k, i :: k in doc.scenes && 0 <= i < |doc.scenes[k]| ==>
        var sc := doc.scenes[k][i];
        |r.scenes[k]| == |doc.scenes[k]| &&
        r.scenes[k][i].tag == sc.tag && r.scenes[k][i].flags == sc.flags &&
        r.scenes[k][i].frame == (if PyInt(sc.frame).value == 0 then sc.frame else NewFrame(sc.frame, offset))) &&
      (forall k, i :: k in doc.difficultFrames.value && 0 <= i < |doc.difficultFrames.value[k]| ==>
        var d := doc.difficultFrames.value[k][i];
        |r.difficultFrames.value[k]| == |doc.difficultFrames.value[k]| &&
        r.difficultFrames.value[k][i].tag == d.tag &&
        r.difficultFrames.value[k][i].frame == (if PyInt(d.frame).value == 0 then d.frame else NewFrame(d.frame, offset)))
  {
  }

  /** With offset 0 a file whose frames are all plain numerals is written back
      unchanged. */
  lemma RenumberedByZero(doc: SceneDocument)
    requires doc.difficultFrames.Some? && AllNumeralMap(doc.scenes, SceneFrame)
    requires AllNumeralMap(doc.difficultFrames.value, DifficultFrameOf)
    ensures Renumbered(doc, 0) == Some(doc)
  {
    NumeralsAreInts(doc.scenes, SceneFrame);
    NumeralsAreInts(doc.difficultFrames.value, DifficultFrameOf);
    var r := Renumbered(doc, 0).value;
    forall k | k in doc.scenes ensures r.scenes[k] == doc.scenes[k] {
      forall i | 0 <= i < |doc.scenes[k]| ensures r.scenes[k][i] == doc.scenes[k][i] {
        var s := doc.scenes[k][i].frame;
        PyIntOfDigits(s);
        if ParseDigits(s) != 0 { NewFrameByZero(s); }
      }
    }
    var m := doc.difficultFrames.value;
    forall k | k in m ensures r.difficultFrames.value[k] == m[k] {
      forall i | 0 <= i < |m[k]| ensures r.difficultFrames.value[k][i] == m[k][i] {
        var s := m[k][i].frame;
        PyIntOfDigits(s);
        if ParseDigits(s) != 0 { NewFrameByZero(s); }
      }
    }
    assert r.scenes == doc.scenes;
    assert r.difficultFrames.value == m;
  }
}
