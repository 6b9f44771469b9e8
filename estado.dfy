/** How the attendance screen turns the status fields of a record into labels,
    the "out of range" flag, the per-status summary and the status filter. */
module EstadoRules {
  import opened Options
  import opened JsText
  import opened JsValues

  const SinEstado := "SIN ESTADO"
  const NoLlenado := "NO LLENADO"
  /** The summary selection that stands for every record. */
  const AllEstados := "__ALL__"

  /** The aliases of the check-in status, in the order they are consulted. */
  const MarcacionAliases := ["EstadoMarcacion", "estadoMarcacion", "Estado_Marcacion", "estado_marcacion"]
  /** The aliases of the check-out status (including the misspelt `EstadoSalda`). */
  const SalidaAliases := ["EstadoSalida", "estadoSalida", "EstadoSalda", "estadoSalda", "Estado_Salida", "estado_salida"]

  // ---------------------------------------------------------------- labels

  /** `formatEstadoLabel`: the text shown for a status value. */
  function FormatEstadoLabel(v: JsVal): (r: string)
    ensures r != "" && Unpadded(r)
  {
    var raw := TrimmedText(v);
    LabelsUnpadded();
    if raw == "" then SinEstado else if raw == "0" then NoLlenado else raw
  }

  lemma LabelsUnpadded()
    ensures SinEstado != "" && Unpadded(SinEstado)
    ensures NoLlenado != "" && Unpadded(NoLlenado)
  {
  }

  /** The three outcomes of `formatEstadoLabel`, stated on the text of the value. */
  lemma FormatEstadoLabelCases(v: JsVal)
    ensures IsNullish(v) ==> FormatEstadoLabel(v) == SinEstado
    ensures !IsNullish(v) && Trim(ToStr(v)) == "" ==> FormatEstadoLabel(v) == SinEstado
    ensures !IsNullish(v) && Trim(ToStr(v)) == "0" ==> FormatEstadoLabel(v) == NoLlenado
    ensures !IsNullish(v) && Trim(ToStr(v)) !in {"", "0"} ==> FormatEstadoLabel(v) == Trim(ToStr(v))
  {
  }

  /** A text status is shown trimmed, unless it is blank or `"0"`. */
  lemma FormatEstadoLabelText(s: string)
    requires Trim(s) != "" && Trim(s) != "0"
    ensures FormatEstadoLabel(Str(s)) == Trim(s)
  {
  }

  /** The number zero, however many fraction digits it was written with,
      prints as `"0"` and is labelled "NO LLENADO". */
  lemma FormatEstadoLabelZero(scale: nat)
    ensures FormatEstadoLabel(Num(0, scale)) == NoLlenado
  {
    ZeroText(scale);
    TrimZero();
  }

  lemma ZeroText(scale: nat)
    ensures ToStr(Num(0, scale)) == "0"
  {
    ZeroNumeral(scale);
  }

  lemma ZeroNumeral(scale: nat)
    ensures NumToStr(0, scale) == "0"
  {
    CanonicalZero(scale);
    ZeroDigits();
  }

  lemma ZeroDigits()
    ensures DecimalText(0, 0) == "0"
  {
    assert NatToString(0) == "0";
  }

  lemma TrimZero()
    ensures Trim("0") == "0"
  {
    TrimUnpadded("0");
  }

  lemma {:induction false} CanonicalZero(scale: nat)
    ensures Canonical(0, scale) == (0, 0)
  {
    if scale > 0 {
      CanonicalZero(scale - 1);
    }
  }

  // ---------------------------------------------------------------- out of range

  /** `isEstadoFueraRango`: the check-in or the check-out status reads `"9"`. */
  function IsEstadoFueraRango(item: JsVal): bool {
    TrimmedText(Coalesce(item, MarcacionAliases, Null)) == "9"
    || TrimmedText(Coalesce(item, SalidaAliases, Null)) == "9"
  }

  /** Flagged exactly when the first present check-in alias or the first
      present check-out alias trims to `"9"`. */
  lemma FueraRangoIff(item: JsVal)
    ensures IsEstadoFueraRango(item)
        <==> (FirstAliasTrimsTo(item, MarcacionAliases, "9")
              || FirstAliasTrimsTo(item, SalidaAliases, "9"))
  {
    CoalesceTrimsTo(item, MarcacionAliases, "9");
    CoalesceTrimsTo(item, SalidaAliases, "9");
  }

  /** The number nine written with any number of trailing zero decimals is
      flagged: `9`, `9.0` and `9.00` all print as `"9"`. */
  lemma FueraRangoNine(k: nat, item: JsVal)
    requires item == Obj(map["EstadoMarcacion" := Num(9 * Pow10(k), k)])
    ensures IsEstadoFueraRango(item)
  {
    NinePrints(k);
    assert Coalesce(item, MarcacionAliases, Null) == Num(9 * Pow10(k), k);
  }

  lemma NinePrints(k: nat)
    ensures TrimmedText(Num(9 * Pow10(k), k)) == "9"
  {
    NineText(k);
    TrimNine();
  }

  lemma NineText(k: nat)
    ensures ToStr(Num(9 * Pow10(k), k)) == "9"
  {
    NineNumeral(k);
  }

  lemma TrimNine()
    ensures Trim("9") == "9"
  {
    TrimUnpadded("9");
  }

  lemma NineNumeral(k: nat)
    ensures NumToStr(9 * Pow10(k), k) == "9"
  {
    CanonicalNine(k);
    NineDigits();
  }

  lemma NineDigits()
    ensures DecimalText(9, 0) == "9"
  {
    assert NatToString(9) == "9";
  }

  lemma {:induction false} CanonicalNine(k: nat)
    ensures Canonical(9 * Pow10(k), k) == (9, 0)
  {
    if k > 0 {
      var m := 9 * Pow10(k - 1);
      assert 9 * Pow10(k) == 10 * m;
      assert (10 * m) % 10 == 0 && (10 * m) / 10 == m;
      CanonicalNine(k - 1);
    }
  }

  /** `??` stops at an empty string: an empty `EstadoMarcacion` hides a `"9"`
      under a later alias. */
  lemma FueraRangoEmptyHides()
    ensures !IsEstadoFueraRango(Obj(map["EstadoMarcacion" := Str(""), "estado_marcacion" := Str("9")]))
  {
    EmptyMarcacionFirst();
    NoSalidaAlias();
    assert Trim("") == "";
  }

  lemma EmptyMarcacionFirst()
    ensures Coalesce(Obj(map["EstadoMarcacion" := Str(""), "estado_marcacion" := Str("9")]), MarcacionAliases, Null)
            == Str("")
  {
    var item := Obj(map["EstadoMarcacion" := Str(""), "estado_marcacion" := Str("9")]);
    assert FirstPresent(item, MarcacionAliases) == 0;
  }

  lemma NoSalidaAlias()
    ensures Coalesce(Obj(map["EstadoMarcacion" := Str(""), "estado_marcacion" := Str("9")]), SalidaAliases, Null)
            == Null
  {
    var item := Obj(map["EstadoMarcacion" := Str(""), "estado_marcacion" := Str("9")]);
    assert forall j | 0 <= j < |SalidaAliases| :: |SalidaAliases[j]| < |"EstadoMarcacion"|;
    assert FirstPresent(item, SalidaAliases) == |SalidaAliases|;
  }

  /** Padding around the nine does not matter. */
  lemma FueraRangePadded()
    ensures IsEstadoFueraRango(Obj(map["estadoSalida" := Str(" 9 ")]))
  {
    PaddedNineFound();
    TrimPaddedNine();
  }

  lemma PaddedNineFound()
    ensures Coalesce(Obj(map["estadoSalida" := Str(" 9 ")]), SalidaAliases, Null) == Str(" 9 ")
  {
    var item := Obj(map["estadoSalida" := Str(" 9 ")]);
    assert "EstadoSalida"[0] != "estadoSalida"[0];
    assert FirstPresent(item, SalidaAliases) == 1;
  }

  lemma TrimPaddedNine()
    ensures Trim(" 9 ") == "9"
  {
    assert TrimStart(" 9 ") == "9 " by {
      assert " 9 "[1..] == "9 ";
    }
    assert TrimEnd("9 ") == "9" by {
      assert "9 "[..1] == "9";
    }
  }

  // ---------------------------------------------------------------- summary

  /** `getResumenEstado`: the summary key of a record, its `Estado` (or
      `estado`) trimmed and upper-cased, "SIN ESTADO" when blank. */
  function ResumenEstado(item: JsVal): (r: string)
    ensures r != "" && Unpadded(r)
  {
    var raw := Nullish(Prop(item, "Estado"), Nullish(Prop(item, "estado"), Str("")));
    var t := Trim(ToStr(raw));
    LabelsUnpadded();
    if t == "" then SinEstado else UpperUnpadded(t); ToUpper(t)
  }

  /** Upper-casing is the only change besides trimming: a present `Estado`
      that is not blank keys its record by its trimmed, upper-cased text, so
      `"0"` stays `"0"` (unlike the label, which says "NO LLENADO"). */
  lemma ResumenEstadoOfText(item: JsVal, s: string)
    requires Prop(item, "Estado") == Str(s) && Trim(s) != ""
    ensures ResumenEstado(item) == ToUpper(Trim(s))
  {
  }

  /** A record with neither `Estado` nor `estado` is keyed "SIN ESTADO". */
  lemma ResumenEstadoMissing(item: JsVal)
    requires IsNullish(Prop(item, "Estado")) && IsNullish(Prop(item, "estado"))
    ensures ResumenEstado(item) == SinEstado
  {
    assert Trim("") == "" by { TrimUnpadded(""); }
  }

  /** A blank `Estado` is keyed "SIN ESTADO", and since `??` stops at a
      string, an `estado` beside it is not read. */
  lemma ResumenEstadoBlank(item: JsVal, s: string)
    requires Prop(item, "Estado") == Str(s) && Trim(s) == ""
    ensures ResumenEstado(item) == SinEstado
  {
  }

  /** Without an `Estado`, the record is keyed by its `estado`. */
  lemma ResumenEstadoFallback(item: JsVal, s: string)
    requires IsNullish(Prop(item, "Estado")) && Prop(item, "estado") == Str(s)
    ensures Trim(s) == "" ==> ResumenEstado(item) == SinEstado
    ensures Trim(s) != "" ==> ResumenEstado(item) == ToUpper(Trim(s))
  {
  }

  /** A whole-number `Estado` (the backend fills it from numeric ids) is
      keyed by its decimal numeral, whatever its sign. */
  lemma ResumenEstadoOfNumber(item: JsVal, n: int)
    requires Prop(item, "Estado") == Num(n, 0)
    ensures ResumenEstado(item) == IntToString(n)
  {
    IntegerKey(n);
  }

  /** `String(n).trim().toUpperCase()` of a whole number is its numeral. */
  lemma IntegerKey(n: int)
    ensures ToStr(Num(n, 0)) == IntToString(n)
    ensures Trim(IntToString(n)) == IntToString(n)
    ensures ToUpper(IntToString(n)) == IntToString(n)
  {
    IntegerText(n);
    NumeralChars(n);
    NumeralKey(IntToString(n));
  }

  /** A text of digits and minus signs is its own trimmed, upper-cased form. */
  lemma NumeralKey(t: string)
    requires forall i | 0 <= i < |t| :: t[i] == '-' || IsDigit(t[i])
    ensures Trim(t) == t && ToUpper(t) == t
  {
    assert Unpadded(t);
    TrimUnpadded(t);
    UpperKeepsNumeral(t);
  }

  lemma IntegerText(n: int)
    ensures ToStr(Num(n, 0)) == IntToString(n)
  {
    assert Canonical(n, 0) == (n, 0);
  }

  lemma NumeralChars(n: int)
    ensures forall i | 0 <= i < |IntToString(n)| :: IntToString(n)[i] == '-' || IsDigit(IntToString(n)[i])
  {
    if n < 0 {
      var d := NatToString(-n);
      assert IntToString(n) == "-" + d;
      assert forall i | 1 <= i < |IntToString(n)| :: IntToString(n)[i] == d[i - 1];
    }
  }

  lemma UpperKeepsNumeral(t: string)
    requires forall i | 0 <= i < |t| :: t[i] == '-' || IsDigit(t[i])
    ensures ToUpper(t) == t
  {
    assert forall i | 0 <= i < |t| :: UpperChar(t[i]) == t[i];
  }

  /** Per-status counts in the order keys were first seen; `acc[k] || 0`
      reads a missing key as 0. */
  type Buckets = seq<(string, nat)>

  /** `acc[k]`, or 0 when `k` has no bucket. */
  function CountIn(b: Buckets, k: string): nat {
    if |b| == 0 then 0 else if b[0].0 == k then b[0].1 else CountIn(b[1..], k)
  }

  predicate DistinctKeys(b: Buckets) {
    forall i, j | 0 <= i < j < |b| :: b[i].0 != b[j].0
  }

  predicate PositiveCounts(b: Buckets) {
    forall i | 0 <= i < |b| :: b[i].1 > 0
  }

  /** The sum of all counts. */
  function Total(b: Buckets): nat {
    if |b| == 0 then 0 else b[0].1 + Total(b[1..])
  }

  /** `acc[key] = (acc[key] || 0) + 1` */
  function Tally(b: Buckets, key: string): (r: Buckets)
    ensures |r| == if CountIn(b, key) > 0 || exists i | 0 <= i < |b| :: b[i].0 == key then |b| else |b| + 1
    ensures forall i | 0 <= i < |b| :: r[i].0 == b[i].0
    ensures forall i | |b| <= i < |r| :: r[i] == (key, 1)
  {
    if |b| == 0 then [(key, 1)]
    else if b[0].0 == key then [(key, b[0].1 + 1)] + b[1..]
    else
      var r := [b[0]] + Tally(b[1..], key);
      assert (exists i | 0 <= i < |b| :: b[i].0 == key) <==> (exists i | 0 <= i < |b[1..]| :: b[1..][i].0 == key) by {
        if exists i | 0 <= i < |b| :: b[i].0 == key {
          var i :| 0 <= i < |b| && b[i].0 == key;
          assert b[1..][i - 1].0 == key;
        }
      }
      r
  }

  /** One tally adds one to the key's count and leaves every other count. */
  lemma {:induction false} TallyCount(b: Buckets, key: string, k: string)
    ensures CountIn(Tally(b, key), k) == CountIn(b, k) + (if k == key then 1 else 0)
    ensures Total(Tally(b, key)) == Total(b) + 1
  {
    if |b| > 0 && b[0].0 != key {
      TallyCount(b[1..], key, k);
    }
  }

  /** Tallying keeps keys distinct and counts positive. */
  lemma {:induction false} TallyWellFormed(b: Buckets, key: string)
    requires DistinctKeys(b) && PositiveCounts(b)
    ensures DistinctKeys(Tally(b, key)) && PositiveCounts(Tally(b, key))
  {
    if |b| > 0 && b[0].0 != key {
      var t := Tally(b[1..], key);
      TallyWellFormed(b[1..], key);
      var r := [b[0]] + t;
      forall i, j | 0 <= i < j < |r| ensures r[i].0 != r[j].0 {
        if i == 0 {
          if j - 1 < |b| - 1 {
            assert r[j].0 == b[j].0;
          } else {
            assert r[j].0 == key;
          }
        }
      }
    }
  }

  /** The summary key of every record, in order. */
  function SummaryKeys(records: seq<JsVal>): (ks: seq<string>)
    ensures |ks| == |records|
    ensures forall i | 0 <= i < |records| :: ks[i] == ResumenEstado(records[i])
  {
    seq(|records|, i requires 0 <= i < |records| => ResumenEstado(records[i]))
  }

  /** The `reduce` that builds `conteoPorEstado`: each key tallied in turn. */
  function CountKeys(ks: seq<string>): Buckets {
    if |ks| == 0 then [] else Tally(CountKeys(ks[..|ks| - 1]), ks[|ks| - 1])
  }

  /** `resumenData.estados`, as (key, count) pairs. */
  function CountByEstado(records: seq<JsVal>): Buckets {
    CountKeys(SummaryKeys(records))
  }

  /** The number of times `k` occurs in `ks`. */
  function Occurrences(ks: seq<string>, k: string): nat {
    if |ks| == 0 then 0
    else Occurrences(ks[..|ks| - 1], k) + (if ks[|ks| - 1] == k then 1 else 0)
  }

  /** The fold yields every key once, with a positive count equal to the
      number of times it occurs, and the counts add up to the number of keys. */
  lemma {:induction false} CountKeysCorrect(ks: seq<string>)
    ensures DistinctKeys(CountKeys(ks)) && PositiveCounts(CountKeys(ks))
    ensures Total(CountKeys(ks)) == |ks|
    ensures forall k :: CountIn(CountKeys(ks), k) == Occurrences(ks, k)
  {
    if |ks| > 0 {
      var init := ks[..|ks| - 1];
      var key := ks[|ks| - 1];
      CountKeysCorrect(init);
      TallyWellFormed(CountKeys(init), key);
      forall k ensures CountIn(CountKeys(ks), k) == Occurrences(ks, k) {
        TallyCount(CountKeys(init), key, k);
      }
      TallyCount(CountKeys(init), key, key);
    }
  }

  /** The summary of the screen: every status once, each count positive and
      equal to the number of records with that status, and the counts adding
      up to the `total` shown above the chart (the number of records). */
  lemma CountByEstadoCorrect(records: seq<JsVal>)
    ensures DistinctKeys(CountByEstado(records)) && PositiveCounts(CountByEstado(records))
    ensures Total(CountByEstado(records)) == |records|
    ensures forall k :: CountIn(CountByEstado(records), k) == Occurrences(SummaryKeys(records), k)
  {
    CountKeysCorrect(SummaryKeys(records));
  }

  /** With distinct keys, the count read for a bucket's key is that bucket's count. */
  lemma {:induction false} CountInBucket(b: Buckets, i: nat)
    requires DistinctKeys(b) && i < |b|
    ensures CountIn(b, b[i].0) == b[i].1
  {
    if i > 0 {
      assert b[0].0 != b[i].0;
      CountInBucket(b[1..], i - 1);
    }
  }

  lemma {:induction false} CountInMissing(b: Buckets, k: string)
    requires forall i | 0 <= i < |b| :: b[i].0 != k
    ensures CountIn(b, k) == 0
  {
    if |b| > 0 {
      CountInMissing(b[1..], k);
    }
  }

  lemma {:induction false} OccurrencesPositive(ks: seq<string>, k: string)
    ensures Occurrences(ks, k) > 0 <==> k in ks
  {
    if |ks| > 0 {
      var init := ks[..|ks| - 1];
      OccurrencesPositive(init, k);
      assert ks == init + [ks[|ks| - 1]];
    }
  }

  /** A status has a bar exactly when some record has that status. */
  lemma BucketIffPresent(records: seq<JsVal>, k: string)
    ensures (exists i | 0 <= i < |CountByEstado(records)| :: CountByEstado(records)[i].0 == k)
        <==> (exists j | 0 <= j < |records| :: ResumenEstado(records[j]) == k)
  {
    var b := CountByEstado(records);
    if exists i | 0 <= i < |b| :: b[i].0 == k {
      var i :| 0 <= i < |b| && b[i].0 == k;
      BucketHasRecord(records, k, i);
    }
    if exists j | 0 <= j < |records| :: ResumenEstado(records[j]) == k {
      var j :| 0 <= j < |records| && ResumenEstado(records[j]) == k;
      RecordHasBucket(records, k, j);
    }
  }

  lemma BucketHasRecord(records: seq<JsVal>, k: string, i: nat)
    requires i < |CountByEstado(records)| && CountByEstado(records)[i].0 == k
    ensures exists j | 0 <= j < |records| :: ResumenEstado(records[j]) == k
  {
    var b := CountByEstado(records);
    var ks := SummaryKeys(records);
    CountByEstadoCorrect(records);
    OccurrencesPositive(ks, k);
    CountInBucket(b, i);
    var j :| 0 <= j < |ks| && ks[j] == k;
    assert ResumenEstado(records[j]) == k;
  }

  lemma RecordHasBucket(records: seq<JsVal>, k: string, j: nat)
    requires j < |records| && ResumenEstado(records[j]) == k
    ensures exists i | 0 <= i < |CountByEstado(records)| :: CountByEstado(records)[i].0 == k
  {
    var b := CountByEstado(records);
    var ks := SummaryKeys(records);
    CountByEstadoCorrect(records);
    assert ks[j] == k;
    OccurrencesPositive(ks, k);
    if forall i | 0 <= i < |b| :: b[i].0 != k {
      CountInMissing(b, k);
    }
  }

  /** `maxResumenEstado`: the largest count, starting from 0. */
  function MaxCount(b: Buckets): (r: nat)
    ensures forall i | 0 <= i < |b| :: b[i].1 <= r
    ensures r == 0 || exists i | 0 <= i < |b| :: b[i].1 == r
  {
    if |b| == 0 then 0
    else
      var m := MaxCount(b[..|b| - 1]);
      var v := b[|b| - 1].1;
      var r := if v > m then v else m;
      assert r == 0 || exists i | 0 <= i < |b| :: b[i].1 == r by {
        if r != 0 && r == m {
          var i :| 0 <= i < |b| - 1 && b[..|b| - 1][i].1 == m;
          assert b[i].1 == r;
        }
      }
      r
  }

  /** With positive counts the largest count is 0 exactly when there are no
      bars, and otherwise it is the count of some bar. */
  lemma MaxCountZero(b: Buckets)
    requires PositiveCounts(b)
    ensures MaxCount(b) == 0 <==> |b| == 0
    ensures |b| > 0 ==> exists i | 0 <= i < |b| :: b[i].1 == MaxCount(b)
  {
    if |b| > 0 {
      assert b[0].1 <= MaxCount(b);
    }
  }

  // ---------------------------------------------------------------- filter

  /** The records whose summary key is `k`, in their original order. */
  function FilterByEstado(records: seq<JsVal>, k: string): seq<JsVal> {
    if |records| == 0 then []
    else
      var last := records[|records| - 1];
      FilterByEstado(records[..|records| - 1], k) + (if ResumenEstado(last) == k then [last] else [])
  }

  /** Filtering keeps a record exactly when its summary key is `k`. */
  lemma {:induction false} FilterByEstadoMembers(records: seq<JsVal>, k: string)
    ensures forall x | x in FilterByEstado(records, k) :: x in records && ResumenEstado(x) == k
    ensures forall x | x in records && ResumenEstado(x) == k :: x in FilterByEstado(records, k)
  {
    if |records| > 0 {
      var init := records[..|records| - 1];
      assert records == init + [records[|records| - 1]];
      FilterByEstadoMembers(init, k);
    }
  }

  /** Filtering keeps exactly as many records as have the status. */
  lemma {:induction false} FilterByEstadoCount(records: seq<JsVal>, k: string)
    ensures |FilterByEstado(records, k)| == Occurrences(SummaryKeys(records), k)
  {
    if |records| > 0 {
      var init := records[..|records| - 1];
      assert SummaryKeys(records)[..|records| - 1] == SummaryKeys(init);
      FilterByEstadoCount(init, k);
    }
  }

  /** Filtering distributes over concatenation: it keeps the records' order. */
  lemma {:induction false} FilterByEstadoAppend(a: seq<JsVal>, b: seq<JsVal>, k: string)
    ensures FilterByEstado(a + b, k) == FilterByEstado(a, k) + FilterByEstado(b, k)
  {
    if |b| > 0 {
      var b0 := b[..|b| - 1];
      assert (a + b)[..|a + b| - 1] == a + b0;
      FilterByEstadoAppend(a, b0, k);
    } else {
      assert a + b == a;
    }
  }

  /** `filteredResumenRecords`: nothing while no bar is selected (`null` or
      the empty string), every record for `__ALL__`, else the records of
      the selected status. */
  function FilteredRecords(records: seq<JsVal>, selected: Option<string>): seq<JsVal> {
    if selected.None? || selected.value == "" then []
    else if selected.value == AllEstados then records
    else FilterByEstado(records, selected.value)
  }

  /** Selecting a bar lists as many records as the bar counts. */
  lemma FilteredMatchesBar(records: seq<JsVal>, i: nat)
    requires i < |CountByEstado(records)|
    requires CountByEstado(records)[i].0 != AllEstados
    ensures |FilteredRecords(records, Some(CountByEstado(records)[i].0))| == CountByEstado(records)[i].1
  {
    var b := CountByEstado(records);
    CountByEstadoCorrect(records);
    CountInBucket(b, i);
    FilterByEstadoCount(records, b[i].0);
    BucketIffPresent(records, b[i].0);
  }

  /** A status that reads `__all__` gets a bar whose selection is the
      "every record" selection, so selecting it lists every record. */
  lemma AllEstadosBarShowsEverything(records: seq<JsVal>)
    requires |records| > 0 && records[0] == Obj(map["Estado" := Str("__all__")])
    ensures exists i | 0 <= i < |CountByEstado(records)| :: CountByEstado(records)[i].0 == AllEstados
    ensures FilteredRecords(records, Some(AllEstados)) == records
  {
    AllEstadosKey();
    BucketIffPresent(records, AllEstados);
  }

  lemma AllEstadosKey()
    ensures ResumenEstado(Obj(map["Estado" := Str("__all__")])) == AllEstados
  {
    var item := Obj(map["Estado" := Str("__all__")]);
    assert Nullish(Prop(item, "Estado"), Nullish(Prop(item, "estado"), Str(""))) == Str("__all__");
    AllTrimmed();
    AllUpper();
  }

  lemma AllTrimmed()
    ensures Trim("__all__") == "__all__"
  {
    assert Unpadded("__all__");
    TrimUnpadded("__all__");
  }

  lemma AllUpper()
    ensures ToUpper("__all__") == AllEstados
  {
    var u := ToUpper("__all__");
    assert u[0] == '_' && u[1] == '_' && u[5] == '_' && u[6] == '_';
    assert u[2] == 'A' && u[3] == 'L' && u[4] == 'L';
  }
}
