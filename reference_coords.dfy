/** `parseReferenceCoords` and `getDistanceToRequiredPoint`: reading the
    office's reference point (`ValorFin`) from an object, a `"lat,lon"` pair
    or free text such as `POINT(-76.95 -12.07)`, and measuring a position
    against it. */
module ReferenceCoords {
  import opened Options
  import opened JsText
  import opened JsValues

  datatype Coords = Coords(latitude: real, longitude: real)

  /** A device position; `None` stands for a field the provider left undefined. */
  datatype GeoFix = GeoFix(latitude: Option<real>, longitude: Option<real>, accuracy: Option<real>)

  predicate ValidLatitude(x: real) {
    -90.0 <= x <= 90.0
  }

  predicate ValidLongitude(x: real) {
    -180.0 <= x <= 180.0
  }

  predicate InRange(c: Coords) {
    ValidLatitude(c.latitude) && ValidLongitude(c.longitude)
  }

  /** `toNumber`: `String(v).trim()` with its first comma read as a decimal
      point, then `Number`; `None` is NaN. */
  function ToNumber(v: JsVal): Option<real> {
    if IsNullish(v) then None else NumberOf(ReplaceFirst(Trim(ToStr(v)), ',', '.'))
  }

  /** `normalizeLatLon`: the pair as (latitude, longitude) when both are in
      range, else swapped when that is in range, else nothing. */
  function NormalizeLatLon(first: JsVal, second: JsVal): (r: Option<Coords>)
    ensures r.Some? ==> InRange(r.value)
  {
    var a := ToNumber(first);
    var b := ToNumber(second);
    if a.Some? && b.Some? && ValidLatitude(a.value) && ValidLongitude(b.value) then
      Some(Coords(a.value, b.value))
    else if a.Some? && b.Some? && ValidLatitude(b.value) && ValidLongitude(a.value) then
      Some(Coords(b.value, a.value))
    else None
  }

  /** The order is kept whenever it is valid, the swap is taken only when the
      given order is not, and there is a result exactly when one of the two
      orders is valid. */
  lemma NormalizeLatLonSpec(first: JsVal, second: JsVal, a: real, b: real)
    requires ToNumber(first) == Some(a) && ToNumber(second) == Some(b)
    ensures ValidLatitude(a) && ValidLongitude(b) ==> NormalizeLatLon(first, second) == Some(Coords(a, b))
    ensures !(ValidLatitude(a) && ValidLongitude(b)) && ValidLatitude(b) && ValidLongitude(a)
            ==> NormalizeLatLon(first, second) == Some(Coords(b, a))
    ensures NormalizeLatLon(first, second).None?
            <==> !(ValidLatitude(a) && ValidLongitude(b)) && !(ValidLatitude(b) && ValidLongitude(a))
  {
  }

  /** A value that is not a number gives no point. */
  lemma NormalizeLatLonNaN(first: JsVal, second: JsVal)
    requires ToNumber(first).None? || ToNumber(second).None?
    ensures NormalizeLatLon(first, second).None?
  {
  }

  // ---------------------------------------------------------------- numerals

  /** An unsigned numeral: digits, optionally a mark from `marks` and more digits. */
  predicate IsUnsignedNumeral(u: string, marks: set<char>) {
    || (|u| > 0 && AllDigits(u))
    || exists k | 0 < k < |u| - 1 :: u[k] in marks && AllDigits(u[..k]) && AllDigits(u[k + 1..])
  }

  /** A whole match of `-?\d+(?:[marks]\d+)?`. */
  predicate IsNumeral(t: string, marks: set<char>) {
    if |t| > 0 && t[0] == '-' then IsUnsignedNumeral(t[1..], marks) else IsUnsignedNumeral(t, marks)
  }

  function SignLength(s: string): (n: nat)
    ensures n <= |s|
  {
    if |s| > 0 && s[0] == '-' then 1 else 0
  }

  /** The lengths of the prefixes of `s` that the token `-?\d+(?:[marks]\d+)?`
      can end at and still be followed by a separator or the end of the
      input, in the order a backtracking matcher tries them: with the
      fraction first (greedy), then without it. Shorter digit runs are
      followed by a digit, which neither a separator nor the end accepts. */
  function NumberCandidates(s: string, marks: set<char>): (r: seq<nat>)
    ensures |r| <= 2
    ensures forall i | 0 <= i < |r| :: 0 < r[i] <= |s|
  {
    var sign := SignLength(s);
    var d := DigitRun(s[sign..]);
    if d == 0 then []
    else
      var n := sign + d;
      if n < |s| && s[n] in marks && DigitRun(s[n + 1..]) > 0 then
        [n + 1 + DigitRun(s[n + 1..]), n]
      else [n]
  }

  /** Every candidate end of the number at the start of `s` spans a numeral. */
  lemma CandidatesAreNumerals(s: string, marks: set<char>)
    ensures forall i | 0 <= i < |NumberCandidates(s, marks)| ::
              IsNumeral(s[..NumberCandidates(s, marks)[i]], marks)
  {
    var sign := SignLength(s);
    var d := DigitRun(s[sign..]);
    if d > 0 {
      var n := sign + d;
      WholeNumeral(s, marks);
      if n < |s| && s[n] in marks && DigitRun(s[n + 1..]) > 0 {
        FractionNumeral(s, marks);
      }
    }
  }

  /** The sign and the leading digit run form a numeral. */
  lemma WholeNumeral(s: string, marks: set<char>)
    requires DigitRun(s[SignLength(s)..]) > 0
    ensures IsNumeral(s[..SignLength(s) + DigitRun(s[SignLength(s)..])], marks)
  {
    var sign := SignLength(s);
    var d := DigitRun(s[sign..]);
    assert s[..sign + d][sign..] == s[sign..][..d];
  }

  /** The sign, the leading digit run, a mark and the digit run after it
      form a numeral. */
  lemma FractionNumeral(s: string, marks: set<char>)
    requires DigitRun(s[SignLength(s)..]) > 0
    requires var n := SignLength(s) + DigitRun(s[SignLength(s)..]);
             n < |s| && s[n] in marks && DigitRun(s[n + 1..]) > 0
    ensures var n := SignLength(s) + DigitRun(s[SignLength(s)..]);
            IsNumeral(s[..n + 1 + DigitRun(s[n + 1..])], marks)
  {
    var sign := SignLength(s);
    var d := DigitRun(s[sign..]);
    var n := sign + d;
    var e := DigitRun(s[n + 1..]);
    var m := n + 1 + e;
    RunsAreDigits(s, sign, n, m);
    DigitsMarkDigits(s, marks, sign, n, m);
  }

  /** The digit run after the sign and the one after the mark, as indices of `s`. */
  lemma RunsAreDigits(s: string, sign: nat, n: nat, m: nat)
    requires sign <= n < |s| && n == sign + DigitRun(s[sign..]) && m == n + 1 + DigitRun(s[n + 1..])
    ensures forall i | sign <= i < m && i != n :: IsDigit(s[i])
  {
    assert forall i | sign <= i < n :: s[i] == s[sign..][i - sign];
    assert forall i | n + 1 <= i < m :: s[i] == s[n + 1..][i - n - 1];
  }

  /** After the sign, digits up to a mark at `n` and digits after it up to
      `m` form a numeral. */
  lemma DigitsMarkDigits(s: string, marks: set<char>, sign: nat, n: nat, m: nat)
    requires sign == SignLength(s) && sign < n && n + 1 < m <= |s| && s[n] in marks
    requires forall i | sign <= i < m && i != n :: IsDigit(s[i])
    ensures IsNumeral(s[..m], marks)
  {
    var u := s[sign..m];
    assert forall i | 0 <= i < |u| :: u[i] == s[sign + i];
    MarkedNumeral(u, n - sign, marks);
    assert SignLength(s[..m]) == sign;
    assert s[..m][sign..] == u;
    SignedNumeral(s[..m], marks);
  }

  /** Digits, a mark and digits form an unsigned numeral. */
  lemma MarkedNumeral(u: string, k: int, marks: set<char>)
    requires 0 < k < |u| - 1 && u[k] in marks
    requires forall i | 0 <= i < |u| && i != k :: IsDigit(u[i])
    ensures IsUnsignedNumeral(u, marks)
  {
    assert AllDigits(u[..k]) && AllDigits(u[k + 1..]) by {
      assert forall i | 0 <= i < k :: u[..k][i] == u[i];
      assert forall j | k + 1 <= j < |u| :: u[k + 1..][j - k - 1] == u[j];
    }
  }

  /** A text is a numeral when what follows its sign is an unsigned one. */
  lemma SignedNumeral(t: string, marks: set<char>)
    requires IsUnsignedNumeral(t[SignLength(t)..], marks)
    ensures IsNumeral(t, marks)
  {
    if SignLength(t) == 0 {
      assert t[0..] == t;
    }
  }

  /** A numeral starts with `-` or a digit and ends with a digit. */
  lemma NumeralEnds(t: string, marks: set<char>)
    requires IsNumeral(t, marks)
    ensures |t| > 0 && (t[0] == '-' || IsDigit(t[0])) && IsDigit(t[|t| - 1])
  {
    var u := if |t| > 0 && t[0] == '-' then t[1..] else t;
    if exists k | 0 < k < |u| - 1 :: u[k] in marks && AllDigits(u[..k]) && AllDigits(u[k + 1..]) {
      var k :| 0 < k < |u| - 1 && u[k] in marks && AllDigits(u[..k]) && AllDigits(u[k + 1..]);
      assert u[0] == u[..k][0];
      assert u[|u| - 1] == u[k + 1..][|u| - k - 2];
    }
  }

  /** An unsigned numeral with a decimal point reads as a number. */
  lemma UnsignedNumeralParses(u: string)
    requires IsUnsignedNumeral(u, {'.'})
    ensures UnsignedDecimal(u).Some?
  {
    if |u| > 0 && AllDigits(u) {
      DigitRunAll(u);
    } else {
      var k :| 0 < k < |u| - 1 && u[k] in {'.'} && AllDigits(u[..k]) && AllDigits(u[k + 1..]);
      assert forall j | 0 <= j < k :: IsDigit(u[j]) by {
        forall j | 0 <= j < k ensures IsDigit(u[j]) {
          assert u[j] == u[..k][j];
        }
      }
      assert !IsDigit(u[k]);
      assert DigitRun(u) == k;
    }
  }

  /** Every numeral with a decimal point is a number for `Number`. */
  lemma NumeralParses(t: string)
    requires IsNumeral(t, {'.'})
    ensures NumberOf(t).Some?
  {
    NumeralEnds(t, {'.'});
    assert Unpadded(t);
    TrimUnpadded(t);
    if t[0] == '-' {
      UnsignedNumeralParses(t[1..]);
    } else {
      UnsignedNumeralParses(t);
    }
  }

  /** Replacing the first `from` of `x + [from] + y` when `x` has none. */
  lemma {:induction false} ReplaceFirstAt(x: string, y: string, from: char, to: char)
    requires from !in x
    ensures ReplaceFirst(x + [from] + y, from, to) == x + [to] + y
  {
    if |x| > 0 {
      assert (x + [from] + y)[1..] == x[1..] + [from] + y;
      ReplaceFirstAt(x[1..], y, from, to);
    }
  }

  /** Reading the first comma as a decimal point turns a pair numeral into a
      numeral with a decimal point. */
  lemma CommaNumeral(t: string)
    requires IsNumeral(t, {'.', ','})
    ensures IsNumeral(ReplaceFirst(t, ',', '.'), {'.'})
  {
    var sign := SignLength(t);
    var p := t[..sign];
    var u := t[sign..];
    assert t == p + u;
    assert IsUnsignedNumeral(u, {'.', ','});
    if |u| > 0 && AllDigits(u) {
      DigitsUnchanged(p, u);
    } else {
      FractionCommaNumeral(p, u);
    }
  }

  lemma FractionCommaNumeral(p: string, u: string)
    requires p == "" || p == "-"
    requires IsUnsignedNumeral(u, {'.', ','}) && !(|u| > 0 && AllDigits(u))
    ensures IsNumeral(ReplaceFirst(p + u, ',', '.'), {'.'})
  {
    var x, c, y := SplitAtMark(u, {'.', ','});
    assert p + u == p + x + [c] + y;
    MarkReplaced(p, x, c, y);
  }

  /** The parts of an unsigned numeral with a fraction. */
  lemma SplitAtMark(u: string, marks: set<char>) returns (x: string, c: char, y: string)
    requires IsUnsignedNumeral(u, marks) && !(|u| > 0 && AllDigits(u))
    ensures u == x + [c] + y && c in marks
    ensures |x| > 0 && AllDigits(x) && |y| > 0 && AllDigits(y)
  {
    var k :| 0 < k < |u| - 1 && u[k] in marks && AllDigits(u[..k]) && AllDigits(u[k + 1..]);
    x, c, y := u[..k], u[k], u[k + 1..];
    assert u == x + [c] + y;
  }

  lemma DigitsUnchanged(p: string, u: string)
    requires p == "" || p == "-"
    requires |u| > 0 && AllDigits(u)
    ensures IsNumeral(ReplaceFirst(p + u, ',', '.'), {'.'})
  {
    NoComma(u);
    assert ',' !in p + u;
    var r := p + u;
    if p == "" {
      assert r == u;
      assert r[0] == u[0];
    } else {
      assert r[1..] == u;
    }
  }

  /** `p x c y` with `c` a point or a comma reads, once its first comma is a
      point, as `p x . y`. */
  lemma MarkReplaced(p: string, x: string, c: char, y: string)
    requires p == "" || p == "-"
    requires |x| > 0 && AllDigits(x) && |y| > 0 && AllDigits(y)
    requires c == '.' || c == ','
    ensures IsNumeral(ReplaceFirst(p + x + [c] + y, ',', '.'), {'.'})
  {
    if c == '.' {
      PointUnchanged(p, x, y);
    } else {
      CommaToPoint(p, x, y);
    }
    NumeralWithPoint(p, x, y);
  }

  lemma PointUnchanged(p: string, x: string, y: string)
    requires p == "" || p == "-"
    requires AllDigits(x) && AllDigits(y)
    ensures ReplaceFirst(p + x + ['.'] + y, ',', '.') == p + x + ['.'] + y
  {
    NoComma(x);
    NoComma(y);
    assert ',' !in p + x + ['.'] + y;
  }

  lemma NoComma(x: string)
    requires AllDigits(x)
    ensures ',' !in x
  {
  }

  lemma CommaToPoint(p: string, x: string, y: string)
    requires p == "" || p == "-"
    requires AllDigits(x)
    ensures ReplaceFirst(p + x + [','] + y, ',', '.') == p + x + ['.'] + y
  {
    NoComma(x);
    assert ',' !in p + x;
    ReplaceFirstAt(p + x, y, ',', '.');
  }

  lemma NumeralWithPoint(p: string, x: string, y: string)
    requires p == "" || p == "-"
    requires |x| > 0 && AllDigits(x) && |y| > 0 && AllDigits(y)
    ensures IsNumeral(p + x + ['.'] + y, {'.'})
  {
    var r := p + x + ['.'] + y;
    var w := x + ['.'] + y;
    assert r == p + w;
    assert w[..|x|] == x && w[|x|] == '.' && w[|x| + 1..] == y;
    assert IsUnsignedNumeral(w, {'.'});
    if p == "" {
      assert r == w;
      assert r[0] == x[0];
    } else {
      assert r[1..] == w;
    }
  }

  /** A pair numeral is always a number for `toNumber`, so in the pair and
      free-text paths only the ranges can reject a point. */
  lemma PairNumeralParses(t: string)
    requires IsNumeral(t, {'.', ','})
    ensures ToNumber(Str(t)).Some?
  {
    NumeralTrimmed(t);
    TrimmedTextNumber(t);
    CommaNumeralParses(t);
  }

  /** `toNumber` of a text reads the text without its surrounding blanks. */
  lemma TrimmedTextNumber(t: string)
    ensures ToNumber(Str(t)) == NumberOf(ReplaceFirst(Trim(t), ',', '.'))
  {
    assert ToStr(Str(t)) == t;
  }

  lemma CommaNumeralParses(t: string)
    requires IsNumeral(t, {'.', ','})
    ensures NumberOf(ReplaceFirst(t, ',', '.')).Some?
  {
    CommaNumeral(t);
    NumeralParses(ReplaceFirst(t, ',', '.'));
  }

  lemma NumeralTrimmed(t: string)
    requires IsNumeral(t, {'.', ','})
    ensures Trim(t) == t
  {
    NumeralEnds(t, {'.', ','});
    assert Unpadded(t);
    TrimUnpadded(t);
  }

  // ---------------------------------------------------------------- pair

  predicate IsSeparatorChar(c: char) {
    IsSpace(c) || c == ',' || c == ';'
  }

  /** A whole match of `\s*[,;\s]\s*`: white space with at most one `,` or `;`. */
  predicate IsSeparator(t: string) {
    && |t| > 0
    && (forall i | 0 <= i < |t| :: IsSeparatorChar(t[i]))
    && (forall i, j | 0 <= i < j < |t| :: IsSpace(t[i]) || IsSpace(t[j]))
  }

  /** The length of the run of separator characters that starts `s`. */
  function SeparatorRun(s: string): (n: nat)
    ensures n <= |s|
    ensures forall i | 0 <= i < n :: IsSeparatorChar(s[i])
    ensures n < |s| ==> !IsSeparatorChar(s[n])
  {
    if s != [] && IsSeparatorChar(s[0]) then 1 + SeparatorRun(s[1..]) else 0
  }

  /** The first number ends at `n`; the rest must be a separator followed by
      a second number that reaches the end. The second number starts with
      `-` or a digit, so the separator is the whole run of separator
      characters. */
  function SplitAfter(t: string, n: nat): (r: Option<(string, string)>)
    requires n <= |t|
    ensures r.Some? ==> r.value.0 == t[..n]
    ensures r.Some? ==> var m := SeparatorRun(t[n..]);
                        && r.value.1 == t[n..][m..]
                        && IsSeparator(t[n..][..m])
                        && |r.value.1| in NumberCandidates(r.value.1, {'.', ','})
  {
    var rest := t[n..];
    var m := SeparatorRun(rest);
    var second := rest[m..];
    if IsSeparator(rest[..m]) && |second| in NumberCandidates(second, {'.', ','}) then
      Some((t[..n], second))
    else None
  }

  function FirstSplit(t: string, cands: seq<nat>): (r: Option<(string, string)>)
    requires forall i | 0 <= i < |cands| :: cands[i] <= |t|
    ensures r.Some? ==> exists i | 0 <= i < |cands| :: SplitAfter(t, cands[i]) == r
  {
    if |cands| == 0 then None
    else if SplitAfter(t, cands[0]).Some? then SplitAfter(t, cands[0])
    else FirstSplit(t, cands[1..])
  }

  /** `raw.match(/^\s*(-?\d+(?:[\.,]\d+)?)\s*[,;\s]\s*(-?\d+(?:[\.,]\d+)?)\s*$/)`,
      as its two groups. The numbers start with `-` or a digit and end with a
      digit, so the outer `\s*` match exactly the surrounding white space. */
  function PairMatch(raw: string): Option<(string, string)> {
    var t := Trim(raw);
    FirstSplit(t, NumberCandidates(t, {'.', ','}))
  }

  /** What the pair pattern accepts: two numerals around a separator, which
      together make up the trimmed input. */
  lemma PairMatchSound(raw: string, a: string, b: string)
    requires PairMatch(raw) == Some((a, b))
    ensures IsNumeral(a, {'.', ','}) && IsNumeral(b, {'.', ','})
    ensures exists sep :: IsSeparator(sep) && Trim(raw) == a + sep + b
  {
    var t := Trim(raw);
    var cands := NumberCandidates(t, {'.', ','});
    var i :| 0 <= i < |cands| && SplitAfter(t, cands[i]) == Some((a, b));
    CandidatesAreNumerals(t, {'.', ','});
    SplitAfterSound(t, cands[i], a, b);
  }

  lemma SplitAfterSound(t: string, n: nat, a: string, b: string)
    requires n <= |t| && SplitAfter(t, n) == Some((a, b))
    ensures IsNumeral(b, {'.', ','})
    ensures exists sep :: IsSeparator(sep) && t == a + sep + b
  {
    SecondNumeral(t, n, a, b);
    SplitAfterParts(t, n, a, b);
  }

  lemma SecondNumeral(t: string, n: nat, a: string, b: string)
    requires n <= |t| && SplitAfter(t, n) == Some((a, b))
    ensures IsNumeral(b, {'.', ','})
  {
    WholeCandidate(b, {'.', ','});
  }

  lemma SplitAfterParts(t: string, n: nat, a: string, b: string)
    requires n <= |t| && SplitAfter(t, n) == Some((a, b))
    ensures exists sep :: IsSeparator(sep) && t == a + sep + b
  {
    var m := SeparatorRun(t[n..]);
    ThreeParts(t, n, m);
    assert IsSeparator(t[n..][..m]);
  }

  /** Cutting `t` at `n` and its rest at `m` gives back `t`. */
  lemma ThreeParts(t: string, n: nat, m: nat)
    requires n <= |t| && m <= |t| - n
    ensures t == t[..n] + t[n..][..m] + t[n..][m..]
  {
    assert t[n..] == t[n..][..m] + t[n..][m..];
  }

  lemma WholeCandidate(s: string, marks: set<char>)
    requires |s| in NumberCandidates(s, marks)
    ensures IsNumeral(s, marks)
  {
    var c := NumberCandidates(s, marks);
    var k :| 0 <= k < |c| && c[k] == |s|;
    CandidatesAreNumerals(s, marks);
    assert s[..|s|] == s;
  }

  /** A run of digits stops at the first character that is not one. */
  lemma DigitRunPrefix(x: string, y: string)
    requires AllDigits(x) && (y == [] || !IsDigit(y[0]))
    ensures DigitRun(x + y) == |x|
  {
    assert forall j | 0 <= j < |x| :: (x + y)[j] == x[j];
    assert y != [] ==> (x + y)[|x|] == y[0];
  }

  /** A run of separator characters stops at the first character that is not one. */
  lemma SeparatorRunPrefix(sep: string, b: string)
    requires forall i | 0 <= i < |sep| :: IsSeparatorChar(sep[i])
    requires b == [] || !IsSeparatorChar(b[0])
    ensures SeparatorRun(sep + b) == |sep|
  {
    assert forall j | 0 <= j < |sep| :: (sep + b)[j] == sep[j];
    assert b != [] ==> (sep + b)[|sep|] == b[0];
  }

  /** A numeral followed by something other than a digit is a candidate
      end of the number read at the start of the text, and it is the first
      candidate tried unless it is a whole number followed by a mark and a
      digit, which the greedy fraction swallows. */
  lemma CandidatesOfNumeral(a: string, rest: string, marks: set<char>)
    requires marks <= {'.', ','}
    requires IsNumeral(a, marks)
    requires rest == [] || !IsDigit(rest[0])
    ensures |a| in NumberCandidates(a + rest, marks)
    ensures NumberCandidates(a + rest, marks)[0] == |a|
            || (AllDigits(a[SignLength(a)..]) && |rest| > 0 && rest[0] in marks && DigitRun(rest[1..]) > 0)
  {
    var u := UnsignedPart(a, marks);
    if |u| > 0 && AllDigits(u) {
      WholeNumeralCandidates(a, u, rest, marks);
    } else {
      var k :| 0 < k < |u| - 1 && u[k] in marks && AllDigits(u[..k]) && AllDigits(u[k + 1..]);
      FractionNumeralCandidates(a, u, k, rest, marks);
    }
  }

  lemma WholeNumeralCandidates(a: string, u: string, rest: string, marks: set<char>)
    requires |a| > 0 && u == a[SignLength(a)..] && |a| == SignLength(a) + |u|
    requires |u| > 0 && AllDigits(u)
    requires rest == [] || !IsDigit(rest[0])
    ensures |a| in NumberCandidates(a + rest, marks)
    ensures NumberCandidates(a + rest, marks)[0] == |a|
            || (AllDigits(a[SignLength(a)..]) && |rest| > 0 && rest[0] in marks && DigitRun(rest[1..]) > 0)
  {
    var s := a + rest;
    assert SignLength(s) == SignLength(a) by {
      assert s[0] == a[0];
    }
    assert s[SignLength(s)..] == u + rest;
    WholeCandidates(s, u, rest, marks);
  }

  lemma FractionNumeralCandidates(a: string, u: string, k: nat, rest: string, marks: set<char>)
    requires marks <= {'.', ','}
    requires |a| > 0 && u == a[SignLength(a)..] && |a| == SignLength(a) + |u|
    requires 0 < k < |u| - 1 && u[k] in marks && AllDigits(u[..k]) && AllDigits(u[k + 1..])
    requires rest == [] || !IsDigit(rest[0])
    ensures |a| in NumberCandidates(a + rest, marks)
    ensures NumberCandidates(a + rest, marks)[0] == |a|
  {
    var s := a + rest;
    assert SignLength(s) == SignLength(a) by {
      assert s[0] == a[0];
    }
    assert s[SignLength(s)..] == u + rest;
    FractionCandidates(s, u, k, rest, marks);
  }

  /** What follows the sign of a numeral is an unsigned numeral. */
  lemma UnsignedPart(a: string, marks: set<char>) returns (u: string)
    requires IsNumeral(a, marks)
    ensures |a| > 0 && u == a[SignLength(a)..] && |a| == SignLength(a) + |u|
    ensures IsUnsignedNumeral(u, marks)
  {
    NumeralEnds(a, marks);
    u := a[SignLength(a)..];
    if SignLength(a) == 0 {
      assert u == a;
    }
  }

  /** The candidates when the unsigned part `u` is all digits. */
  lemma WholeCandidates(s: string, u: string, rest: string, marks: set<char>)
    requires |u| > 0 && AllDigits(u) && (rest == [] || !IsDigit(rest[0]))
    requires SignLength(s) + |u| + |rest| == |s| && s[SignLength(s)..] == u + rest
    ensures var n := SignLength(s) + |u|;
            || NumberCandidates(s, marks) == [n]
            || (&& |rest| > 0 && rest[0] in marks && DigitRun(rest[1..]) > 0
                && |NumberCandidates(s, marks)| == 2 && NumberCandidates(s, marks)[1] == n)
  {
    DigitRunPrefix(u, rest);
    var n := SignLength(s) + |u|;
    if n < |s| {
      assert s[n] == rest[0];
      assert s[n + 1..] == rest[1..];
    }
  }

  /** The candidates when the unsigned part `u` has a mark at `k`. */
  lemma FractionCandidates(s: string, u: string, k: nat, rest: string, marks: set<char>)
    requires marks <= {'.', ','}
    requires 0 < k < |u| - 1 && u[k] in marks && AllDigits(u[..k]) && AllDigits(u[k + 1..])
    requires rest == [] || !IsDigit(rest[0])
    requires SignLength(s) + |u| + |rest| == |s| && s[SignLength(s)..] == u + rest
    ensures |NumberCandidates(s, marks)| > 0
    ensures NumberCandidates(s, marks)[0] == SignLength(s) + |u|
  {
    FractionRuns(s, SignLength(s), u, k, rest);
  }

  /** The digit runs before and after the mark at `k` of the unsigned part. */
  lemma FractionRuns(s: string, sign: nat, u: string, k: nat, rest: string)
    requires 0 < k < |u| - 1 && !IsDigit(u[k]) && AllDigits(u[..k]) && AllDigits(u[k + 1..])
    requires rest == [] || !IsDigit(rest[0])
    requires sign + |u| + |rest| == |s| && s[sign..] == u + rest
    ensures DigitRun(s[sign..]) == k && s[sign + k] == u[k]
    ensures DigitRun(s[sign + k + 1..]) == |u| - k - 1
  {
    assert s[sign..] == u[..k] + ([u[k]] + u[k + 1..] + rest);
    DigitRunPrefix(u[..k], [u[k]] + u[k + 1..] + rest);
    assert s[sign + k + 1..] == u[k + 1..] + rest;
    DigitRunPrefix(u[k + 1..], rest);
  }

  /** Splitting right after a first numeral that is followed by a separator
      and a second numeral gives exactly those two numerals. */
  lemma SplitAfterComplete(a: string, sep: string, b: string)
    requires IsNumeral(a, {'.', ','}) && IsSeparator(sep) && IsNumeral(b, {'.', ','})
    ensures SplitAfter(a + sep + b, |a|) == Some((a, b))
  {
    var t := a + sep + b;
    assert t[|a|..] == sep + b;
    assert t[..|a|] == a;
    RestAfterFirst(sep, b);
  }

  /** After the first number: the separator run is `sep`, and `b` is a
      whole second number. */
  lemma RestAfterFirst(sep: string, b: string)
    requires IsSeparator(sep) && IsNumeral(b, {'.', ','})
    ensures SeparatorRun(sep + b) == |sep|
    ensures (sep + b)[..|sep|] == sep && (sep + b)[|sep|..] == b
    ensures |b| in NumberCandidates(b, {'.', ','})
  {
    NumeralEnds(b, {'.', ','});
    SeparatorRunPrefix(sep, b);
    assert (sep + b)[..|sep|] == sep;
    assert (sep + b)[|sep|..] == b;
    CandidatesOfNumeral(b, [], {'.', ','});
    assert b + [] == b;
  }

  /** The pair pattern accepts every trimmed text made of two numerals
      around a separator. */
  lemma PairMatchComplete(raw: string, a: string, sep: string, b: string)
    requires Trim(raw) == a + sep + b
    requires IsNumeral(a, {'.', ','}) && IsSeparator(sep) && IsNumeral(b, {'.', ','})
    ensures PairMatch(raw).Some?
  {
    if sep == "," && AllDigits(a[SignLength(a)..]) && IsDigit(b[0]) && ',' in b {
      var d1, d2 := CommaSecond(b);
      CommaJoin(a, d1, d2);
      PairMatchGreedyComma(raw, a, d1, d2);
    } else {
      PairMatchExact(raw, a, sep, b);
    }
  }

  /** The pair pattern reads such a text as exactly its two numerals, except
      when a whole first number, a lone comma and an unsigned second number
      with a decimal comma follow each other: the greedy decimal part then
      takes the first comma, and the second one separates (`"1,5,2"` reads
      as `"1,5"` and `"2"`, see PairMatchGreedyComma). A second number
      without a comma makes the engine give the fraction back, so `"12,77"`
      reads as `"12"` and `"77"`; a signed one leaves no digit after the
      comma, so `"12,-1,5"` reads as `"12"` and `"-1,5"`. */
  lemma PairMatchExact(raw: string, a: string, sep: string, b: string)
    requires Trim(raw) == a + sep + b
    requires IsNumeral(a, {'.', ','}) && IsSeparator(sep) && IsNumeral(b, {'.', ','})
    requires !(sep == "," && AllDigits(a[SignLength(a)..]) && IsDigit(b[0]) && ',' in b)
    ensures PairMatch(raw) == Some((a, b))
  {
    var t := Trim(raw);
    assert PairMatch(raw) == FirstSplit(t, NumberCandidates(t, {'.', ','}));
    if sep == "," && IsDigit(b[0]) && AllDigits(a[SignLength(a)..]) {
      CommaBacktracks(t, a, b);
    } else {
      PairSplitExact(t, a, sep, b);
    }
  }

  /** The one text the pair pattern does not split at its separator: a whole
      number, a comma and a second number with a decimal comma. The greedy
      fraction takes the first comma, and the second comma separates. */
  lemma PairMatchGreedyComma(raw: string, a: string, d1: string, d2: string)
    requires Trim(raw) == a + "," + d1 + "," + d2
    requires IsNumeral(a, {'.', ','}) && AllDigits(a[SignLength(a)..])
    requires |d1| > 0 && AllDigits(d1) && |d2| > 0 && AllDigits(d2)
    ensures PairMatch(raw) == Some((a + "," + d1, d2))
  {
    var t := Trim(raw);
    var first := a + "," + d1;
    GreedyFirstNumeral(a, d1);
    assert IsUnsignedNumeral(d2, {'.', ','});
    assert IsNumeral(d2, {'.', ','});
    assert IsSeparator(",");
    assert t == first + "," + d2;
    assert PairMatch(raw) == FirstSplit(t, NumberCandidates(t, {'.', ','}));
    PairSplitExact(t, first, ",", d2);
  }

  /** A whole number, a comma and digits make a numeral whose unsigned part
      is not all digits. */
  lemma GreedyFirstNumeral(a: string, d1: string)
    requires IsNumeral(a, {'.', ','}) && AllDigits(a[SignLength(a)..])
    requires |d1| > 0 && AllDigits(d1)
    ensures IsNumeral(a + "," + d1, {'.', ','})
    ensures !AllDigits((a + "," + d1)[SignLength(a + "," + d1)..])
  {
    var u := UnsignedPart(a, {'.', ','});
    var first := a + "," + d1;
    var sign := SignLength(a);
    assert first[0] == a[0];
    assert SignLength(first) == sign;
    var v := first[sign..];
    assert v == u + "," + d1;
    assert v[|u|] == ',' && v[..|u|] == u && v[|u| + 1..] == d1;
    assert IsUnsignedNumeral(v, {'.', ','});
    if sign == 1 {
      assert first[1..] == v;
    } else {
      assert first == v;
    }
  }

  /** A whole number, a comma and a second number without a comma: the
      greedy fraction `a,d` leaves no separator, so the engine backtracks to
      the whole number and splits at the comma. */
  lemma CommaBacktracks(t: string, a: string, b: string)
    requires t == a + "," + b
    requires IsNumeral(a, {'.', ','}) && AllDigits(a[SignLength(a)..])
    requires IsNumeral(b, {'.', ','}) && IsDigit(b[0]) && ',' !in b
    ensures FirstSplit(t, NumberCandidates(t, {'.', ','})) == Some((a, b))
  {
    var d := DigitsThenPoint(b);
    CommaSteps(t, a, b, d);
  }

  lemma CommaSteps(t: string, a: string, b: string, d: nat)
    requires t == a + "," + b
    requires IsNumeral(a, {'.', ','}) && AllDigits(a[SignLength(a)..]) && IsNumeral(b, {'.', ','})
    requires d == DigitRun(b) && 0 < d <= |b| && (d == |b| || b[d] == '.')
    ensures FirstSplit(t, NumberCandidates(t, {'.', ','})) == Some((a, b))
  {
    CommaCandidates(t, a, b, d);
    GreedyFractionFails(t, a, b, d);
    CommaSplit(t, a, b);
    FirstSplitFirst(t, [|a|], |a|, (a, b));
  }

  /** The greedy fraction `a,d` is followed by nothing or a point. */
  lemma GreedyFractionFails(t: string, a: string, b: string, d: nat)
    requires t == a + "," + b && 0 < d <= |b| && (d == |b| || b[d] == '.')
    ensures FirstSplit(t, [|a| + 1 + d, |a|]) == FirstSplit(t, [|a|])
  {
    assert d < |b| ==> t[|a| + 1 + d] == b[d];
    NoSplitWithoutSeparator(t, |a| + 1 + d);
    SkipFailedCandidate(t, |a| + 1 + d, |a|);
  }

  /** Backtracked to the whole number, the comma separates. */
  lemma CommaSplit(t: string, a: string, b: string)
    requires t == a + "," + b
    requires IsNumeral(a, {'.', ','}) && IsNumeral(b, {'.', ','})
    ensures |a| <= |t| && SplitAfter(t, |a|) == Some((a, b))
  {
    assert IsSeparator(",");
    SplitAfterComplete(a, ",", b);
  }

  /** A first number followed by nothing or by a point has no separator after it. */
  lemma NoSplitWithoutSeparator(t: string, n: nat)
    requires n <= |t| && (n == |t| || t[n] == '.')
    ensures SplitAfter(t, n).None?
  {
    assert n < |t| ==> t[n..][0] == t[n];
    assert SeparatorRun(t[n..]) == 0;
  }

  /** A candidate after which no split exists is passed over. */
  lemma SkipFailedCandidate(t: string, c0: nat, c1: nat)
    requires c0 <= |t| && c1 <= |t| && SplitAfter(t, c0).None?
    ensures FirstSplit(t, [c0, c1]) == FirstSplit(t, [c1])
  {
    assert [c0, c1][1..] == [c1];
  }

  /** A second number that starts with a digit and has no comma is a digit
      run followed by nothing or by a decimal point. */
  lemma DigitsThenPoint(b: string) returns (d: nat)
    requires IsNumeral(b, {'.', ','}) && IsDigit(b[0]) && ',' !in b
    ensures d == DigitRun(b) && 0 < d <= |b|
    ensures d == |b| || b[d] == '.'
  {
    d := DigitRun(b);
    assert b[0] != '-';
    if |b| > 0 && AllDigits(b) {
      DigitRunAll(b);
    } else {
      var k :| 0 < k < |b| - 1 && b[k] in {'.', ','} && AllDigits(b[..k]) && AllDigits(b[k + 1..]);
      assert b[k] == '.';
      DigitRunPrefix(b[..k], b[k..]);
      assert b[..k] + b[k..] == b;
    }
  }

  lemma CommaJoin(a: string, d1: string, d2: string)
    ensures a + "," + (d1 + "," + d2) == a + "," + d1 + "," + d2
  {
  }

  /** A second number that starts with a digit and has a comma is two digit
      runs around that comma. */
  lemma CommaSecond(b: string) returns (d1: string, d2: string)
    requires IsNumeral(b, {'.', ','}) && IsDigit(b[0]) && ',' in b
    ensures b == d1 + "," + d2
    ensures |d1| > 0 && AllDigits(d1) && |d2| > 0 && AllDigits(d2)
  {
    assert b[0] != '-';
    var c :| 0 <= c < |b| && b[c] == ',';
    assert !AllDigits(b);
    var k :| 0 < k < |b| - 1 && b[k] in {'.', ','} && AllDigits(b[..k]) && AllDigits(b[k + 1..]);
    assert forall j | 0 <= j < k :: b[j] == b[..k][j];
    assert forall j | k < j < |b| :: b[j] == b[k + 1..][j - k - 1];
    assert c == k;
    d1, d2 := b[..k], b[k + 1..];
    assert b == d1 + [b[k]] + d2;
  }

  /** The candidates of `a,b` for a whole `a` and a `b` starting with `d`
      digits: the greedy fraction first, then `a` alone. */
  lemma CommaCandidates(t: string, a: string, b: string, d: nat)
    requires t == a + "," + b
    requires IsNumeral(a, {'.', ','}) && AllDigits(a[SignLength(a)..])
    requires d == DigitRun(b) && 0 < d
    ensures NumberCandidates(t, {'.', ','}) == [|a| + 1 + d, |a|]
  {
    CommaLayout(t, a, b);
    var sign := SignLength(t);
    assert sign + DigitRun(t[sign..]) == |a|;
  }

  /** In `a,b` for a whole `a`, the first digit run ends at the comma. */
  lemma CommaLayout(t: string, a: string, b: string)
    requires t == a + "," + b
    requires IsNumeral(a, {'.', ','}) && AllDigits(a[SignLength(a)..])
    ensures SignLength(t) == SignLength(a) && SignLength(t) + DigitRun(t[SignLength(t)..]) == |a|
    ensures |a| < |t| && t[|a|] == ',' && t[|a| + 1..] == b
  {
    var u := UnsignedPart(a, {'.', ','});
    var sign := SignLength(a);
    assert t[0] == a[0];
    assert SignLength(t) == sign;
    assert t[sign..] == u + ("," + b);
    DigitRunPrefix(u, "," + b);
    assert t[|a|] == ',';
    assert t[|a| + 1..] == b;
  }

  lemma PairSplitExact(t: string, a: string, sep: string, b: string)
    requires t == a + sep + b
    requires IsNumeral(a, {'.', ','}) && IsSeparator(sep) && IsNumeral(b, {'.', ','})
    requires !(sep == "," && IsDigit(b[0]) && AllDigits(a[SignLength(a)..]))
    ensures FirstSplit(t, NumberCandidates(t, {'.', ','})) == Some((a, b))
  {
    var cands := NumberCandidates(t, {'.', ','});
    FirstCandidate(a, sep, b);
    assert |cands| > 0 && cands[0] == |a|;
    SplitAfterComplete(a, sep, b);
    FirstSplitFirst(t, cands, |a|, (a, b));
  }

  lemma FirstSplitFirst(t: string, cands: seq<nat>, n: nat, p: (string, string))
    requires forall j | 0 <= j < |cands| :: cands[j] <= |t|
    requires |cands| > 0 && cands[0] == n && n <= |t| && SplitAfter(t, n) == Some(p)
    ensures FirstSplit(t, cands) == Some(p)
  {
  }

  /** Outside that case the first numeral's end is the first candidate. */
  lemma FirstCandidate(a: string, sep: string, b: string)
    requires IsNumeral(a, {'.', ','}) && IsSeparator(sep) && IsNumeral(b, {'.', ','})
    requires !(sep == "," && IsDigit(b[0]) && AllDigits(a[SignLength(a)..]))
    ensures |NumberCandidates(a + sep + b, {'.', ','})| > 0
    ensures NumberCandidates(a + sep + b, {'.', ','})[0] == |a|
  {
    var rest := sep + b;
    assert a + sep + b == a + rest;
    assert rest[0] == sep[0];
    NumeralEnds(b, {'.', ','});
    assert rest[1] == if |sep| > 1 then sep[1] else b[0];
    assert rest[1..][0] == rest[1];
    assert |sep| == 1 && sep[0] == ',' ==> sep == ",";
    CandidatesOfNumeral(a, rest, {'.', ','});
  }

  // ---------------------------------------------------------------- free text

  /** `raw.match(/-?\d+(?:\.\d+)?/g)`: the numbers met scanning left to right,
      each as long as possible, the scan resuming after each. */
  function NumberTokens(s: string): (r: seq<string>)
    ensures forall i | 0 <= i < |r| :: IsNumeral(r[i], {'.'})
    decreases |s|
  {
    if s == [] then []
    else
      var c := NumberCandidates(s, {'.'});
      CandidatesAreNumerals(s, {'.'});
      if |c| > 0 then [s[..c[0]]] + NumberTokens(s[c[0]..]) else NumberTokens(s[1..])
  }

  /** Every token found in free text is a number for `toNumber`. */
  lemma TokensParse(s: string)
    ensures forall i | 0 <= i < |NumberTokens(s)| :: ToNumber(Str(NumberTokens(s)[i])).Some?
  {
    forall i | 0 <= i < |NumberTokens(s)| ensures ToNumber(Str(NumberTokens(s)[i])).Some? {
      var t := NumberTokens(s)[i];
      assert IsNumeral(t, {'.', ','}) by {
        if |t| > 0 && t[0] == '-' {
          if !(|t[1..]| > 0 && AllDigits(t[1..])) {
            var k :| 0 < k < |t[1..]| - 1 && t[1..][k] in {'.'} && AllDigits(t[1..][..k]) && AllDigits(t[1..][k + 1..]);
          }
        } else {
          if !(|t| > 0 && AllDigits(t)) {
            var k :| 0 < k < |t| - 1 && t[k] in {'.'} && AllDigits(t[..k]) && AllDigits(t[k + 1..]);
          }
        }
      }
      PairNumeralParses(t);
    }
  }

  /** Characters that start no number: not a digit, and a `-` only when no
      digit follows it. */
  predicate NoNumberStart(p: string, s: string) {
    && (forall i | 0 <= i < |p| :: !IsDigit(p[i]))
    && (p == [] || p[|p| - 1] != '-' || s == [] || !IsDigit(s[0]))
  }

  lemma NoCandidateAt(p: string, s: string, marks: set<char>)
    requires p != [] && NoNumberStart(p, s)
    ensures NumberCandidates(p + s, marks) == []
  {
    var t := p + s;
    assert t[0] == p[0];
    if p[0] == '-' {
      assert t[1..] == p[1..] + s;
      if |p| > 1 {
        assert t[1..][0] == p[1];
      }
    }
  }

  /** The scan passes over text that starts no number. */
  lemma {:induction false} TokensSkip(p: string, s: string)
    requires NoNumberStart(p, s)
    ensures NumberTokens(p + s) == NumberTokens(s)
    decreases |p|
  {
    if p != [] {
      NoCandidateAt(p, s, {'.'});
      assert (p + s)[1..] == p[1..] + s;
      TokensSkip(p[1..], s);
    } else {
      assert p + s == s;
    }
  }

  /** A numeral followed by neither a digit nor, after a whole number, a
      point and a digit is read as one token, and the scan resumes after it. */
  lemma TokensTake(t: string, q: string)
    requires IsNumeral(t, {'.'})
    requires q == [] || !IsDigit(q[0])
    requires !(AllDigits(t[SignLength(t)..]) && |q| > 1 && q[0] == '.' && IsDigit(q[1]))
    ensures NumberTokens(t + q) == [t] + NumberTokens(q)
  {
    CandidatesOfNumeral(t, q, {'.'});
    if |q| > 0 && DigitRun(q[1..]) > 0 {
      assert q[1..][0] == q[1];
    }
    assert (t + q)[..|t|] == t;
    assert (t + q)[|t|..] == q;
  }

  /** Free text holds a number exactly when it holds a digit. */
  lemma TokensExist(s: string)
    ensures |NumberTokens(s)| > 0 <==> exists i | 0 <= i < |s| :: IsDigit(s[i])
  {
    if exists i | 0 <= i < |s| :: IsDigit(s[i]) {
      var i :| 0 <= i < |s| && IsDigit(s[i]);
      DigitGivesToken(s, i);
    } else {
      assert NoNumberStart(s, []);
      TokensSkip(s, []);
      assert s + [] == s;
    }
  }

  lemma {:induction false} DigitGivesToken(s: string, i: nat)
    requires i < |s| && IsDigit(s[i])
    ensures |NumberTokens(s)| > 0
    decreases i
  {
    assert i == 0 ==> SignLength(s) == 0;
    if NumberCandidates(s, {'.'}) == [] {
      assert s[1..][i - 1] == s[i];
      DigitGivesToken(s[1..], i - 1);
    }
  }

  /** Two numbers in free text, such as `POINT(-76.95 -12.07)`, are its first
      two tokens. */
  lemma TokensOfTwoNumbers(p: string, x: string, g: string, y: string, q: string)
    requires IsNumeral(x, {'.'}) && IsNumeral(y, {'.'})
    requires NoNumberStart(p, x) && g != [] && g[0] != '.' && NoNumberStart(g, y)
    requires q == [] || (!IsDigit(q[0]) && q[0] != '.')
    ensures NumberTokens(p + x + g + y + q) == [x, y] + NumberTokens(q)
  {
    var r := g + y + q;
    Regroup(p + x, g, y, q);
    NonEmptyStart(g, y + q);
    TokensOfOneNumber(p, x, r);
    TokensOfOneNumber(g, y, q);
    var rest := NumberTokens(q);
    assert [x] + ([y] + rest) == [x, y] + rest;
  }

  /** A number after text that starts none, and before neither a digit nor a
      point, is the next token. */
  lemma TokensOfOneNumber(p: string, x: string, r: string)
    requires IsNumeral(x, {'.'}) && NoNumberStart(p, x)
    requires r == [] || (!IsDigit(r[0]) && r[0] != '.')
    ensures NumberTokens(p + x + r) == [x] + NumberTokens(r)
  {
    NumeralEnds(x, {'.'});
    Regroup3(p, x, r);
    NoNumberStartBefore(p, x, r);
    TokensSkip(p, x + r);
    TokensTake(x, r);
  }

  lemma Regroup(p: string, g: string, y: string, q: string)
    ensures p + g + y + q == p + (g + y + q)
  {
  }

  lemma Regroup3(p: string, x: string, r: string)
    ensures p + x + r == p + (x + r)
  {
  }

  lemma NonEmptyStart(g: string, r: string)
    requires g != []
    ensures (g + r)[0] == g[0]
  {
  }

  lemma NoNumberStartBefore(p: string, x: string, r: string)
    requires x != [] && NoNumberStart(p, x)
    ensures NoNumberStart(p, x + r)
  {
    assert (x + r)[0] == x[0];
  }

  // ---------------------------------------------------------------- parse

  /** The object path: `Latitud ?? lat ?? latitude` and `Longitud ?? lon ??
      longitude`, used only when both are present. */
  function ObjectCoords(v: JsVal): Option<Coords> {
    var lat := Coalesce(v, LatitudeAliases, Null);
    var lon := Coalesce(v, LongitudeAliases, Null);
    if lat != Null && lon != Null then NormalizeLatLon(lat, lon) else None
  }

  const LatitudeAliases: seq<string> := ["Latitud", "lat", "latitude"]
  const LongitudeAliases: seq<string> := ["Longitud", "lon", "longitude"]

  /** An object with a latitude and a longitude alias is read from its first
      present alias of each, and that point wins over the text path; an
      object lacking either, or whose pair is not a valid point, is read as
      text. */
  lemma ObjectPath(v: JsVal)
    requires v.Obj?
    ensures var i, j := FirstPresent(v, LatitudeAliases), FirstPresent(v, LongitudeAliases);
            i < 3 && j < 3 && NormalizeLatLon(Prop(v, LatitudeAliases[i]), Prop(v, LongitudeAliases[j])).Some?
            ==> ParseReferenceCoords(v) == NormalizeLatLon(Prop(v, LatitudeAliases[i]), Prop(v, LongitudeAliases[j]))
    ensures var i, j := FirstPresent(v, LatitudeAliases), FirstPresent(v, LongitudeAliases);
            i == 3 || j == 3 || NormalizeLatLon(Prop(v, LatitudeAliases[i]), Prop(v, LongitudeAliases[j])).None?
            ==> ParseReferenceCoords(v) == (var raw := Trim(ToStr(v)); if raw == "" then None else TextCoords(raw))
  {
    assert Truthy(v);
    ObjectCoordsOfAliases(v);
  }

  lemma ObjectCoordsOfAliases(v: JsVal)
    ensures var i, j := FirstPresent(v, LatitudeAliases), FirstPresent(v, LongitudeAliases);
            ObjectCoords(v) == if i < 3 && j < 3 then NormalizeLatLon(Prop(v, LatitudeAliases[i]), Prop(v, LongitudeAliases[j])) else None
  {
    var lat := Coalesce(v, LatitudeAliases, Null);
    var lon := Coalesce(v, LongitudeAliases, Null);
    assert ObjectCoords(v) == if lat != Null && lon != Null then NormalizeLatLon(lat, lon) else None;
    assert FirstPresent(v, LatitudeAliases) == 3 ==> lat == Null;
    assert FirstPresent(v, LongitudeAliases) == 3 ==> lon == Null;
  }

  /** `parseReferenceCoords`. */
  function ParseReferenceCoords(v: JsVal): (r: Option<Coords>)
    ensures r.Some? ==> InRange(r.value)
  {
    if !Truthy(v) && !IsZero(v) then None
    else
      var fromObject := if v.Obj? || v.Arr? then ObjectCoords(v) else None;
      if fromObject.Some? then fromObject
      else
        var raw := Trim(ToStr(v));
        if raw == "" then None else TextCoords(raw)
  }

  /** The text half of `parseReferenceCoords`: the pair pattern, then the
      first two numbers found anywhere in the text. */
  function TextCoords(raw: string): (r: Option<Coords>)
    ensures r.Some? ==> InRange(r.value)
  {
    var fromPair := match PairMatch(raw) case Some((a, b)) => NormalizeLatLon(Str(a), Str(b)) case None => None;
    if fromPair.Some? then fromPair
    else
      var tokens := NumberTokens(raw);
      if |tokens| < 2 then None else NormalizeLatLon(Str(tokens[0]), Str(tokens[1]))
  }

  /** No point is read from `null`, `undefined`, `false`, `""` or NaN-free
      falsy values other than zero, nor from blank text. */
  lemma ParseNoPoint(v: JsVal)
    requires (!Truthy(v) && !IsZero(v)) || (v.Str? && Trim(v.s) == "")
    ensures ParseReferenceCoords(v).None?
  {
  }

  /** A text that is not an object and that holds fewer than two numbers
      and is not a pair gives no point. */
  lemma ParseTooFewNumbers(s: string)
    requires Trim(s) != "" && PairMatch(Trim(s)).None? && |NumberTokens(Trim(s))| < 2
    ensures ParseReferenceCoords(Str(s)).None?
  {
    TextTooFewNumbers(Trim(s));
    TextPath(s);
  }

  lemma TextTooFewNumbers(raw: string)
    requires PairMatch(raw).None? && |NumberTokens(raw)| < 2
    ensures TextCoords(raw).None?
  {
  }

  /** A non-blank string is read by the text path. */
  lemma TextPath(s: string)
    requires Trim(s) != ""
    ensures ParseReferenceCoords(Str(s)) == TextCoords(Trim(s))
  {
    assert s != "" by {
      assert |Trim(s)| <= |s|;
    }
    var v := Str(s);
    assert Truthy(v);
    assert !(v.Obj? || v.Arr?);
    assert ToStr(v) == s;
  }

  /** A text made of two numerals around a separator is read as that pair,
      in the order written unless only the swapped order is in range, and
      with no fallback to the free-text numbers when the pair is in range. */
  lemma ParsePairText(s: string, a: string, sep: string, b: string)
    requires Trim(s) == a + sep + b
    requires IsNumeral(a, {'.', ','}) && IsSeparator(sep) && IsNumeral(b, {'.', ','})
    requires !(sep == "," && AllDigits(a[SignLength(a)..]) && IsDigit(b[0]) && ',' in b)
    ensures NormalizeLatLon(Str(a), Str(b)).Some?
            ==> ParseReferenceCoords(Str(s)) == NormalizeLatLon(Str(a), Str(b))
  {
    NumeralEnds(a, {'.', ','});
    TextPath(s);
    TrimIdempotent(s);
    PairMatchExact(Trim(s), a, sep, b);
  }

  /** A pair written in the order (latitude, longitude) keeps that order. */
  lemma ParsePairInOrder(s: string, a: string, sep: string, b: string, x: real, y: real)
    requires Trim(s) == a + sep + b
    requires IsNumeral(a, {'.', ','}) && IsSeparator(sep) && IsNumeral(b, {'.', ','})
    requires !(sep == "," && AllDigits(a[SignLength(a)..]) && IsDigit(b[0]) && ',' in b)
    requires ToNumber(Str(a)) == Some(x) && ToNumber(Str(b)) == Some(y)
    requires ValidLatitude(x) && ValidLongitude(y)
    ensures ParseReferenceCoords(Str(s)) == Some(Coords(x, y))
  {
    NormalizeLatLonSpec(Str(a), Str(b), x, y);
    ParsePairText(s, a, sep, b);
  }

  /** Free text that starts with something other than a number, such as
      `POINT(-76.95 -12.07)`, is not a pair; its first two numbers are read
      as the point. */
  lemma ParseFreeText(s: string, p: string, x: string, g: string, y: string, q: string)
    requires Trim(s) == p + x + g + y + q && p != []
    requires IsNumeral(x, {'.'}) && IsNumeral(y, {'.'})
    requires NoNumberStart(p, x) && g != [] && g[0] != '.' && NoNumberStart(g, y)
    requires q == [] || (!IsDigit(q[0]) && q[0] != '.')
    ensures ParseReferenceCoords(Str(s)) == NormalizeLatLon(Str(x), Str(y))
  {
    var t := Trim(s);
    TrimIdempotent(s);
    Regroup(p + x, g, y, q);
    FreeTextNotPair(t, p, x, g + y + q);
    TokensOfTwoNumbers(p, x, g, y, q);
    var rest := NumberTokens(q);
    assert ([x, y] + rest)[0] == x && ([x, y] + rest)[1] == y;
    FreeTextCoords(t, x, y);
    TextPath(s);
  }

  lemma FreeTextNotPair(t: string, p: string, x: string, r: string)
    requires Trim(t) == t && t == p + x + r && p != []
    requires IsNumeral(x, {'.'}) && NoNumberStart(p, x)
    ensures PairMatch(t).None?
  {
    NoPairStart(p, x, r);
    NoCandidateNoPair(t);
  }

  lemma NoPairStart(p: string, x: string, r: string)
    requires p != [] && IsNumeral(x, {'.'}) && NoNumberStart(p, x)
    ensures NumberCandidates(p + x + r, {'.', ','}) == []
  {
    NumeralEnds(x, {'.'});
    Regroup3(p, x, r);
    NoNumberStartBefore(p, x, r);
    NoCandidateAt(p, x + r, {'.', ','});
  }

  lemma NoCandidateNoPair(t: string)
    requires Trim(t) == t && NumberCandidates(t, {'.', ','}) == []
    ensures PairMatch(t).None?
  {
  }

  lemma FreeTextCoords(t: string, x: string, y: string)
    requires PairMatch(t).None?
    requires |NumberTokens(t)| >= 2 && NumberTokens(t)[0] == x && NumberTokens(t)[1] == y
    ensures TextCoords(t) == NormalizeLatLon(Str(x), Str(y))
  {
  }

  // ---------------------------------------------------------------- distance

  /** `getDistanceToRequiredPoint`, with the haversine distance in metres
      passed in as `dist`. */
  function DistanceToRequiredPoint(fix: Option<GeoFix>, valorFin: JsVal,
                                   dist: (real, real, real, real) -> real): (r: Option<real>)
    ensures r.Some? <==> fix.Some? && fix.value.latitude.Some? && fix.value.longitude.Some?
                         && ParseReferenceCoords(valorFin).Some?
    ensures r.Some? ==> var point := ParseReferenceCoords(valorFin).value;
                        r.value == dist(fix.value.latitude.value, fix.value.longitude.value,
                                        point.latitude, point.longitude)
  {
    if fix.None? || fix.value.latitude.None? || fix.value.longitude.None? then None
    else match ParseReferenceCoords(valorFin)
      case None => None
      case Some(c) => Some(dist(fix.value.latitude.value, fix.value.longitude.value, c.latitude, c.longitude))
  }
}
