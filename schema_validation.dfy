/** Checking an inferred schema against a page (`validate_schema`) and applying
    it (`extract_data`, `cast_value`). CSS selection is not modelled: each
    container comes with the elements every field's selector matched in it. */
module SchemaValidation {
  import opened Text
  import opened Wrappers
  import EndpointClassifier

  /** An attribute as the parser returns it: a string, or a list of strings for
      multi-valued attributes such as `class`. */
  datatype AttrValue = Single(s: string) | Multi(items: seq<string>)

  /** A matched element: `get_text(strip=True)` and its attributes. */
  datatype Element = Element(text: string, attributes: map<string, AttrValue>)

  /** The `"type"` entry of a field: missing, JSON `null`, or a string. */
  datatype TypeKey = Absent | Null | Given(name: string)

  /** One entry of `schema["fields"]`, in the order of the dictionary; the
      selector itself is not modelled. */
  datatype FieldSpec = FieldSpec(name: string, attribute: Option<string>, dtype: TypeKey)

  /** For one container, the elements each field's selector matched, listed in
      the order of the fields. */
  type Container = seq<seq<Element>>

  /** Every container lists one match list per field. */
  predicate Shaped(fieldCount: nat, containers: seq<Container>) {
    forall k :: 0 <= k < |containers| ==> |containers[k]| == fieldCount
  }

  // ---------------------------------------------------------------------------
  // validate_schema
  // ---------------------------------------------------------------------------

  /** The coverage threshold for an endpoint type; unknown types get 0.5. */
  function MinCoverage(endpointType: string): (r: real)
    ensures endpointType == "RANDOM" || endpointType == "TABLE" ==> r == 0.1
    ensures endpointType == "SCROLL" || endpointType == "PAGINATION" ==> r == 0.3
    ensures endpointType !in {"RANDOM", "TABLE", "SCROLL", "PAGINATION"} ==> r == 0.5
  {
    if endpointType == "RANDOM" then 0.1
    else if endpointType == "SCROLL" then 0.3
    else if endpointType == "PAGINATION" then 0.3
    else if endpointType == "TABLE" then 0.1
    else if endpointType == "DEFAULT" then 0.5
    else 0.5
  }

  /** The table's keys are upper-case while the classifier's labels are
      lower-case, so every label the classifier produces gets the default 0.5. */
  lemma ClassifierLabelsGetDefaultThreshold(e: EndpointClassifier.EndpointType)
    ensures MinCoverage(EndpointClassifier.Label(e)) == 0.5
  {
  }

  /** The table key a classifier label evidently stands for. */
  function ThresholdKey(e: EndpointClassifier.EndpointType): (k: string)
    ensures e == EndpointClassifier.Random || e == EndpointClassifier.Tableful ==> MinCoverage(k) == 0.1
    ensures e == EndpointClassifier.Scroll ==> MinCoverage(k) == 0.3
    ensures (e != EndpointClassifier.Random && e != EndpointClassifier.Tableful
             && e != EndpointClassifier.Scroll) ==> MinCoverage(k) == 0.5
  {
    match e
    case Random => "RANDOM"
    case Scroll => "SCROLL"
    case Tableful => "TABLE"
    case _ => "DEFAULT"
  }

  /** The corrected lookup changes the threshold exactly for the three labels
      the table was written for. */
  lemma ThresholdKeyDiffers(e: EndpointClassifier.EndpointType)
    ensures MinCoverage(ThresholdKey(e)) != MinCoverage(EndpointClassifier.Label(e)) <==>
              e == EndpointClassifier.Random || e == EndpointClassifier.Tableful || e == EndpointClassifier.Scroll
  {
    ClassifierLabelsGetDefaultThreshold(e);
  }

  /** How many containers have a match for field `f` (`select_one` found one). */
  function Hits(containers: seq<Container>, f: nat): (r: nat)
    requires forall k :: 0 <= k < |containers| ==> f < |containers[k]|
    ensures r <= |containers|
  {
    if containers == [] then 0
    else
      var last := containers[|containers| - 1];
      Hits(containers[..|containers| - 1], f) + (if |last[f]| > 0 then 1 else 0)
  }

  /** Field `f` matches in every container exactly when the count is the
      number of containers, and in none exactly when it is zero. */
  lemma {:induction false} HitsExtremes(containers: seq<Container>, f: nat)
    requires forall k :: 0 <= k < |containers| ==> f < |containers[k]|
    ensures Hits(containers, f) == |containers| <==> forall k :: 0 <= k < |containers| ==> |containers[k][f]| > 0
    ensures Hits(containers, f) == 0 <==> forall k :: 0 <= k < |containers| ==> |containers[k][f]| == 0
    decreases |containers|
  {
    if containers != [] {
      var init := containers[..|containers| - 1];
      HitsExtremes(init, f);
      assert forall k :: 0 <= k < |init| ==> init[k] == containers[k];
    }
  }

  lemma HitsStep(containers: seq<Container>, c: nat, f: nat)
    requires c < |containers|
    requires forall k :: 0 <= k < |containers| ==> f < |containers[k]|
    ensures Hits(containers[..c + 1], f) == Hits(containers[..c], f) + (if |containers[c][f]| > 0 then 1 else 0)
  {
    assert containers[..c + 1][..c] == containers[..c];
  }

  /** `matches / len(containers)` for field `f`. */
  function Coverage(containers: seq<Container>, f: nat): (r: real)
    requires |containers| > 0
    requires forall k :: 0 <= k < |containers| ==> f < |containers[k]|
    ensures 0.0 <= r <= 1.0
  {
    var h := Hits(containers, f);
    RatioFacts(h as real, |containers| as real);
    h as real / |containers| as real
  }

  /** Coverage is 1 exactly when every container matches the field, and 0
      exactly when none does. */
  lemma CoverageExtremes(containers: seq<Container>, f: nat)
    requires |containers| > 0
    requires forall k :: 0 <= k < |containers| ==> f < |containers[k]|
    ensures Coverage(containers, f) == 1.0 <==> forall k :: 0 <= k < |containers| ==> |containers[k][f]| > 0
    ensures Coverage(containers, f) == 0.0 <==> forall k :: 0 <= k < |containers| ==> |containers[k][f]| == 0
  {
    HitsExtremes(containers, f);
    RatioFacts(Hits(containers, f) as real, |containers| as real);
  }

  /** `field_scores` after the first `m` fields. */
  function FieldScores(containers: seq<Container>, m: nat): (r: seq<real>)
    requires |containers| > 0
    requires forall k :: 0 <= k < |containers| ==> m <= |containers[k]|
    ensures |r| == m
    ensures forall k :: 0 <= k < m ==> r[k] == Coverage(containers, k)
  {
    if m == 0 then [] else FieldScores(containers, m - 1) + [Coverage(containers, m - 1)]
  }

  /** Python's `sum` over reals. */
  function Sum(xs: seq<real>): real {
    if xs == [] then 0.0 else Sum(xs[..|xs| - 1]) + xs[|xs| - 1]
  }

  lemma {:induction false} SumBounds(xs: seq<real>)
    requires forall k :: 0 <= k < |xs| ==> 0.0 <= xs[k] <= 1.0
    ensures 0.0 <= Sum(xs) <= |xs| as real
    ensures Sum(xs) == |xs| as real <==> forall k :: 0 <= k < |xs| ==> xs[k] == 1.0
    ensures Sum(xs) == 0.0 <==> forall k :: 0 <= k < |xs| ==> xs[k] == 0.0
  {
    if xs != [] {
      SumBounds(xs[..|xs| - 1]);
    }
  }

  /** The mean field coverage. */
  function Confidence(containers: seq<Container>, fieldCount: nat): real
    requires |containers| > 0 && fieldCount > 0 && Shaped(fieldCount, containers)
  {
    Sum(FieldScores(containers, fieldCount)) / fieldCount as real
  }

  /** Every field matches in every container. */
  predicate AllMatched(containers: seq<Container>, fieldCount: nat)
    requires Shaped(fieldCount, containers)
  {
    forall k, f :: 0 <= k < |containers| && 0 <= f < fieldCount ==> |containers[k][f]| > 0
  }

  /** No field matches in any container. */
  predicate NoneMatched(containers: seq<Container>, fieldCount: nat)
    requires Shaped(fieldCount, containers)
  {
    forall k, f :: 0 <= k < |containers| && 0 <= f < fieldCount ==> |containers[k][f]| == 0
  }

  lemma RatioFacts(s: real, n: real)
    requires 0.0 <= s <= n && n > 0.0
    ensures 0.0 <= s / n <= 1.0
    ensures s / n == 1.0 <==> s == n
    ensures s / n == 0.0 <==> s == 0.0
  {
    var q := s / n;
    assert q * n == s;
  }

  /** Confidence lies in [0, 1]. */
  lemma ConfidenceRange(containers: seq<Container>, fieldCount: nat)
    requires |containers| > 0 && fieldCount > 0 && Shaped(fieldCount, containers)
    ensures 0.0 <= Confidence(containers, fieldCount) <= 1.0
  {
    SumBounds(FieldScores(containers, fieldCount));
    RatioFacts(Sum(FieldScores(containers, fieldCount)), fieldCount as real);
  }

  /** Confidence is 1 exactly when every field matches in every container. */
  lemma ConfidenceOne(containers: seq<Container>, fieldCount: nat)
    requires |containers| > 0 && fieldCount > 0 && Shaped(fieldCount, containers)
    ensures Confidence(containers, fieldCount) == 1.0 <==> AllMatched(containers, fieldCount)
  {
    var scores := FieldScores(containers, fieldCount);
    SumBounds(scores);
    RatioFacts(Sum(scores), fieldCount as real);
    if AllMatched(containers, fieldCount) {
      forall f | 0 <= f < fieldCount
        ensures scores[f] == 1.0
      {
        CoverageExtremes(containers, f);
      }
    }
    if Sum(scores) == fieldCount as real {
      forall k, f | 0 <= k < |containers| && 0 <= f < fieldCount
        ensures |containers[k][f]| > 0
      {
        assert scores[f] == 1.0;
        CoverageExtremes(containers, f);
      }
    }
  }

  /** Confidence is 0 exactly when no field matches anywhere. */
  lemma ConfidenceZero(containers: seq<Container>, fieldCount: nat)
    requires |containers| > 0 && fieldCount > 0 && Shaped(fieldCount, containers)
    ensures Confidence(containers, fieldCount) == 0.0 <==> NoneMatched(containers, fieldCount)
  {
    var scores := FieldScores(containers, fieldCount);
    SumBounds(scores);
    RatioFacts(Sum(scores), fieldCount as real);
    if NoneMatched(containers, fieldCount) {
      forall f | 0 <= f < fieldCount
        ensures scores[f] == 0.0
      {
        CoverageExtremes(containers, f);
      }
    }
    if Sum(scores) == 0.0 {
      forall k, f | 0 <= k < |containers| && 0 <= f < fieldCount
        ensures |containers[k][f]| == 0
      {
        assert scores[f] == 0.0;
        CoverageExtremes(containers, f);
      }
    }
  }

  /** The dictionary `validate_schema` returns. */
  datatype Validation =
    | Rejected(reason: string)
    | Checked(valid: bool, confidence: real, containersFound: nat)

  /** `validate_schema`. No containers is a rejection; a schema without fields
      divides by zero; otherwise the verdict compares the mean coverage with the
      endpoint type's threshold. */
  method ValidateSchema(fields: seq<FieldSpec>, containers: seq<Container>, endpointType: string)
    returns (r: Result<Validation>)
    requires Shaped(|fields|, containers)
    ensures |containers| == 0 ==> r == Ok(Rejected("No containers"))
    ensures |containers| > 0 && |fields| == 0 ==> r == Err("ZeroDivisionError")
    ensures |containers| > 0 && |fields| > 0 ==>
              r == Ok(Checked(Confidence(containers, |fields|) >= MinCoverage(endpointType),
                              Confidence(containers, |fields|), |containers|))
  {
    if |containers| == 0 {
      return Ok(Rejected("No containers"));
    }
    var minCoverage := MinCoverage(endpointType);
    var fieldScores: seq<real> := [];
    var f := 0;
    while f < |fields|
      invariant 0 <= f <= |fields|
      invariant fieldScores == FieldScores(containers, f)
    {
      var matches := 0;
      var c := 0;
      while c < |containers|
        invariant 0 <= c <= |containers|
        invariant matches == Hits(containers[..c], f)
      {
        HitsStep(containers, c, f);
        if |containers[c][f]| > 0 {
          matches := matches + 1;
        }
        c := c + 1;
      }
      assert containers[..c] == containers;
      var coverage := matches as real / |containers| as real;
      fieldScores := fieldScores + [coverage];
      f := f + 1;
    }
    if |fieldScores| == 0 {
      return Err("ZeroDivisionError");
    }
    var confidence := Sum(fieldScores) / |fieldScores| as real;
    r := Ok(Checked(confidence >= minCoverage, confidence, |containers|));
  }

  /** A schema whose every field matches in every container is valid for any
      endpoint type; one that matches nothing is invalid for any. */
  lemma ValidationVerdicts(containers: seq<Container>, fieldCount: nat, endpointType: string)
    requires |containers| > 0 && fieldCount > 0 && Shaped(fieldCount, containers)
    ensures AllMatched(containers, fieldCount) ==> Confidence(containers, fieldCount) >= MinCoverage(endpointType)
    ensures NoneMatched(containers, fieldCount) ==> Confidence(containers, fieldCount) < MinCoverage(endpointType)
  {
    ConfidenceOne(containers, fieldCount);
    ConfidenceZero(containers, fieldCount);
  }

  // ---------------------------------------------------------------------------
  // cast_value, extract_data
  // ---------------------------------------------------------------------------

  /** A cast value: the string itself, or a successful `float(...)` or
      `datetime.fromisoformat(...)` of it, kept symbolic. */
  datatype Value = Text(s: string) | Number(source: string) | Date(source: string)

  /** Whether Python's conversions accept a string. */
  datatype Parsers = Parsers(isFloat: string -> bool, isIsoDate: string -> bool)

  /** `cast_value` on a present value: a failed conversion, or a type other
      than "number" and "date", gives the string back unchanged. */
  function CastValue(value: string, dtype: Option<string>, parsers: Parsers): (r: Value)
    ensures r.Number? ==> dtype == Some("number") && parsers.isFloat(value) && r.source == value
    ensures r.Date? ==> dtype == Some("date") && parsers.isIsoDate(value) && r.source == value
    ensures r.Text? ==> r.s == value
    ensures r == Text(value) <==> !(dtype == Some("number") && parsers.isFloat(value))
                                  && !(dtype == Some("date") && parsers.isIsoDate(value))
  {
    if dtype == Some("number") then
      if parsers.isFloat(value) then Number(value) else Text(value)
    else if dtype == Some("date") then
      if parsers.isIsoDate(value) then Date(value) else Text(value)
    else Text(value)
  }

  /** `spec.get("type", "string")`: the type handed to `cast_value`. */
  function CastType(t: TypeKey): Option<string> {
    match t
    case Absent => Some("string")
    case Null => None
    case Given(name) => Some(name)
  }

  /** What `extract_data` reads besides the schema and the matches. */
  datatype Context = Context(baseUrl: Option<string>, urljoin: (string, string) -> string, parsers: Parsers)

  /** Python truthiness of an optional string. */
  predicate Truthy(v: Option<string>) {
    v.Some? && v.value != ""
  }

  /** The raw value of one element: the named attribute (first item of a list,
      joined with a truthy base URL), or the stripped text without one. */
  function RawValue(el: Element, attribute: Option<string>, ctx: Context): (r: Option<string>)
    ensures !Truthy(attribute) ==> r == Some(el.text)
    ensures Truthy(attribute) && attribute.value !in el.attributes ==> r == None
    ensures Truthy(attribute) && attribute.value in el.attributes && el.attributes[attribute.value] == Multi([])
            ==> r == None
    ensures Truthy(attribute) && attribute.value in el.attributes && el.attributes[attribute.value].Single?
            ==> var s := el.attributes[attribute.value].s;
                r == Some(if Truthy(ctx.baseUrl) then ctx.urljoin(ctx.baseUrl.value, s) else s)
    ensures Truthy(attribute) && attribute.value in el.attributes
            && el.attributes[attribute.value].Multi? && el.attributes[attribute.value].items != []
            ==> var first := el.attributes[attribute.value].items[0];
                r == Some(if Truthy(ctx.baseUrl) then ctx.urljoin(ctx.baseUrl.value, first) else first)
  {
    if Truthy(attribute) then
      var val: Option<string> :=
        if attribute.value !in el.attributes then None
        else match el.attributes[attribute.value]
          case Single(s) => Some(s)
          case Multi(items) => if items == [] then None else Some(items[0]);
      if val.Some? && Truthy(ctx.baseUrl) then Some(ctx.urljoin(ctx.baseUrl.value, val.value)) else val
    else Some(el.text)
  }

  /** An attribute list gives its first item, or nothing when it is empty; a
      single attribute value is always present. */
  lemma AttributeListFirst(el: Element, name: string, ctx: Context)
    requires name != "" && name in el.attributes
    ensures RawValue(el, Some(name), ctx) == None <==> el.attributes[name] == Multi([])
    ensures el.attributes[name].Multi? && el.attributes[name].items != [] && !Truthy(ctx.baseUrl)
            ==> RawValue(el, Some(name), ctx) == Some(el.attributes[name].items[0])
  {
  }

  /** `values` for one field in one container: each truthy raw value, cast. */
  function FieldValues(els: seq<Element>, spec: FieldSpec, ctx: Context): (r: seq<Value>)
    ensures |r| <= |els|
    ensures r == [] <==> forall k :: 0 <= k < |els| ==> !Truthy(RawValue(els[k], spec.attribute, ctx))
  {
    if els == [] then []
    else
      var init := els[..|els| - 1];
      var val := RawValue(els[|els| - 1], spec.attribute, ctx);
      var r := FieldValues(init, spec, ctx)
               + (if Truthy(val) then [CastValue(val.value, CastType(spec.dtype), ctx.parsers)] else []);
      assert forall k :: 0 <= k < |init| ==> init[k] == els[k];
      r
  }

  /** `idx` lists positions below `bound` in strictly increasing order. */
  predicate Increasing(idx: seq<nat>, bound: nat) {
    && (forall j :: 0 <= j < |idx| ==> idx[j] < bound)
    && (forall i, j :: 0 <= i < j < |idx| ==> idx[i] < idx[j])
  }

  /** The positions holding `true`, in increasing order. */
  function TrueIndices(keep: seq<bool>): (idx: seq<nat>)
    ensures Increasing(idx, |keep|)
    ensures forall k :: 0 <= k < |keep| ==> (k in idx <==> keep[k])
  {
    if keep == [] then []
    else
      var n := |keep| - 1;
      var prev := TrueIndices(keep[..n]);
      var idx := prev + (if keep[n] then [n] else []);
      assert forall k :: 0 <= k < n ==> keep[..n][k] == keep[k] && (k in idx <==> k in prev);
      idx
  }

  /** One more entry extends the positions by at most that entry's. */
  lemma TrueIndicesStep(keep: seq<bool>, init: seq<bool>)
    requires keep != [] && init == keep[..|keep| - 1]
    ensures TrueIndices(keep) == TrueIndices(init) + (if keep[|keep| - 1] then [|keep| - 1] else [])
  {
  }

  /** Which elements have a truthy raw value. */
  function Truthies(els: seq<Element>, attribute: Option<string>, ctx: Context): (keep: seq<bool>)
    ensures |keep| == |els|
  {
    seq(|els|, k requires 0 <= k < |els| => Truthy(RawValue(els[k], attribute, ctx)))
  }

  /** The positions of the elements whose raw value is truthy, in element order. */
  function ValueIndices(els: seq<Element>, attribute: Option<string>, ctx: Context): (idx: seq<nat>)
    ensures Increasing(idx, |els|)
    ensures forall k :: 0 <= k < |els| ==> (k in idx <==> Truthy(RawValue(els[k], attribute, ctx)))
  {
    TrueIndices(Truthies(els, attribute, ctx))
  }

  /** One more element extends the positions by at most that element's. */
  lemma ValueIndicesStep(els: seq<Element>, attribute: Option<string>, ctx: Context)
    requires els != []
    ensures var n := |els| - 1;
            ValueIndices(els, attribute, ctx)
            == ValueIndices(els[..n], attribute, ctx) + (if Truthy(RawValue(els[n], attribute, ctx)) then [n] else [])
  {
    var n := |els| - 1;
    var keep := Truthies(els, attribute, ctx);
    assert keep[..n] == Truthies(els[..n], attribute, ctx);
    TrueIndicesStep(keep, keep[..n]);
  }

  /** `v` is the cast of the truthy raw value of `el`. */
  predicate CastOf(el: Element, spec: FieldSpec, ctx: Context, v: Value) {
    var val := RawValue(el, spec.attribute, ctx);
    Truthy(val) && v == CastValue(val.value, CastType(spec.dtype), ctx.parsers)
  }

  /** `values` is the cast of every truthy raw value and of nothing else, in
      the order the elements were matched. */
  lemma {:induction false} FieldValuesInOrder(els: seq<Element>, spec: FieldSpec, ctx: Context)
    ensures |FieldValues(els, spec, ctx)| == |ValueIndices(els, spec.attribute, ctx)|
    ensures forall j :: 0 <= j < |FieldValues(els, spec, ctx)| ==>
              CastOf(els[ValueIndices(els, spec.attribute, ctx)[j]], spec, ctx, FieldValues(els, spec, ctx)[j])
    decreases |els|
  {
    if els != [] {
      var n := |els| - 1;
      var init := els[..n];
      FieldValuesInOrder(init, spec, ctx);
      var val := RawValue(els[n], spec.attribute, ctx);
      var prev, pidx := FieldValues(init, spec, ctx), ValueIndices(init, spec.attribute, ctx);
      var r, idx := FieldValues(els, spec, ctx), ValueIndices(els, spec.attribute, ctx);
      ValueIndicesStep(els, spec.attribute, ctx);
      assert r == prev + (if Truthy(val) then [CastValue(val.value, CastType(spec.dtype), ctx.parsers)] else []);
      assert idx == pidx + (if Truthy(val) then [n] else []);
      forall j | 0 <= j < |r|
        ensures CastOf(els[idx[j]], spec, ctx, r[j])
      {
        if j < |prev| {
          assert r[j] == prev[j] && idx[j] == pidx[j];
          assert init[pidx[j]] == els[pidx[j]];
        } else {
          assert r[j] == CastValue(val.value, CastType(spec.dtype), ctx.parsers) && idx[j] == n;
        }
      }
    }
  }

  /** A field of a row: nothing, one value, or every value. */
  datatype FieldValue = Missing | One(v: Value) | Many(vs: seq<Value>)

  /** The single-versus-multi choice. `None.endswith` raises when the type is
      JSON null and some value survived. */
  function FieldResult(values: seq<Value>, dtype: TypeKey): (r: Result<FieldValue>)
    ensures r == Ok(Missing) <==> values == []
    ensures r.Err? <==> values != [] && dtype == Null
    ensures r.Ok? && r.value.Many? ==> dtype.Given? && EndsWith(dtype.name, "[]") && r.value.vs == values
    ensures r.Ok? && r.value.One? ==> r.value.v == values[0]
  {
    if values == [] then Ok(Missing)
    else match dtype
      case Absent => Ok(One(values[0]))
      case Null => Err("AttributeError")
      case Given(name) => if EndsWith(name, "[]") then Ok(Many(values)) else Ok(One(values[0]))
  }

  /** One entry of `item`: the field's values, then the single-versus-multi choice. */
  function Cell(spec: FieldSpec, els: seq<Element>, ctx: Context): Result<FieldValue> {
    FieldResult(FieldValues(els, spec, ctx), spec.dtype)
  }

  /** Building the row of container `c` raises: some field's type is JSON null
      and one of its elements has a truthy value. */
  predicate ItemFails(fields: seq<FieldSpec>, c: Container, ctx: Context)
    requires |c| == |fields|
  {
    exists f :: 0 <= f < |fields| && Cell(fields[f], c[f], ctx).Err?
  }

  /** The values of `item` for container `c`, in field order. */
  function ItemCells(fields: seq<FieldSpec>, c: Container, ctx: Context): (r: seq<FieldValue>)
    requires |c| == |fields| && !ItemFails(fields, c, ctx)
    ensures |r| == |fields|
    ensures forall f :: 0 <= f < |fields| ==> Ok(r[f]) == Cell(fields[f], c[f], ctx)
  {
    seq(|fields|, f requires 0 <= f < |fields| => Cell(fields[f], c[f], ctx).value)
  }

  /** `any(v is not None for v in item.values())`. */
  predicate HasValue(item: seq<FieldValue>) {
    exists k :: 0 <= k < |item| && item[k] != Missing
  }

  /** Some container raises while its row is built. */
  predicate RowsFail(fields: seq<FieldSpec>, containers: seq<Container>, ctx: Context)
    requires Shaped(|fields|, containers)
  {
    exists k :: 0 <= k < |containers| && ItemFails(fields, containers[k], ctx)
  }

  /** The rows `extract_data` returns when nothing raises: the items that hold
      a value, in container order. */
  function Rows(fields: seq<FieldSpec>, containers: seq<Container>, ctx: Context): seq<seq<FieldValue>>
    requires Shaped(|fields|, containers) && !RowsFail(fields, containers, ctx)
  {
    if containers == [] then []
    else
      var n := |containers| - 1;
      var item := ItemCells(fields, containers[n], ctx);
      Rows(fields, containers[..n], ctx) + (if HasValue(item) then [item] else [])
  }

  /** Each row comes from a container, has one entry per field and holds a
      value; there are no more rows than containers. */
  lemma {:induction false} RowsFacts(fields: seq<FieldSpec>, containers: seq<Container>, ctx: Context)
    requires Shaped(|fields|, containers) && !RowsFail(fields, containers, ctx)
    ensures |Rows(fields, containers, ctx)| <= |containers|
    ensures forall i :: 0 <= i < |Rows(fields, containers, ctx)| ==>
              |Rows(fields, containers, ctx)[i]| == |fields| && HasValue(Rows(fields, containers, ctx)[i])
    ensures forall i :: 0 <= i < |Rows(fields, containers, ctx)| ==>
              exists k :: 0 <= k < |containers| && !ItemFails(fields, containers[k], ctx)
                          && Rows(fields, containers, ctx)[i] == ItemCells(fields, containers[k], ctx)
    decreases |containers|
  {
    if containers != [] {
      var n := |containers| - 1;
      var init := containers[..n];
      RowsFacts(fields, init, ctx);
      var prev := Rows(fields, init, ctx);
      var item := ItemCells(fields, containers[n], ctx);
      var r := Rows(fields, containers, ctx);
      assert r == prev + (if HasValue(item) then [item] else []);
      forall i | 0 <= i < |r|
        ensures exists k :: 0 <= k < |containers| && !ItemFails(fields, containers[k], ctx)
                            && r[i] == ItemCells(fields, containers[k], ctx)
      {
        if i < |prev| {
          var k :| 0 <= k < |init| && !ItemFails(fields, init[k], ctx) && prev[i] == ItemCells(fields, init[k], ctx);
          assert init[k] == containers[k];
        } else {
          assert r[i] == item;
        }
      }
    }
  }

  /** Container `c` builds without raising and its item holds a value. */
  predicate KeepsRow(fields: seq<FieldSpec>, c: Container, ctx: Context) {
    |c| == |fields| && !ItemFails(fields, c, ctx) && HasValue(ItemCells(fields, c, ctx))
  }

  /** Which containers build a row that holds a value. */
  function RowKeeps(fields: seq<FieldSpec>, containers: seq<Container>, ctx: Context): (keep: seq<bool>)
    ensures |keep| == |containers|
  {
    seq(|containers|, k requires 0 <= k < |containers| => KeepsRow(fields, containers[k], ctx))
  }

  /** The positions of the containers whose item holds a value, in container order. */
  function RowIndices(fields: seq<FieldSpec>, containers: seq<Container>, ctx: Context): (idx: seq<nat>)
    ensures Increasing(idx, |containers|)
    ensures forall k :: 0 <= k < |containers| ==> (k in idx <==> KeepsRow(fields, containers[k], ctx))
  {
    TrueIndices(RowKeeps(fields, containers, ctx))
  }

  /** One more container extends the positions by at most that container's. */
  lemma RowIndicesStep(fields: seq<FieldSpec>, containers: seq<Container>, ctx: Context)
    requires containers != []
    ensures var n := |containers| - 1;
            RowIndices(fields, containers, ctx)
            == RowIndices(fields, containers[..n], ctx) + (if KeepsRow(fields, containers[n], ctx) then [n] else [])
  {
    var n := |containers| - 1;
    var keep := RowKeeps(fields, containers, ctx);
    assert keep[..n] == RowKeeps(fields, containers[..n], ctx);
    TrueIndicesStep(keep, keep[..n]);
  }

  /** `row` is the item container `c` builds without raising. */
  predicate RowOf(fields: seq<FieldSpec>, c: Container, ctx: Context, row: seq<FieldValue>) {
    |c| == |fields| && !ItemFails(fields, c, ctx) && row == ItemCells(fields, c, ctx)
  }

  /** One more container: the rows and their positions grow together. */
  lemma RowsAndIndicesStep(fields: seq<FieldSpec>, containers: seq<Container>, ctx: Context)
    requires Shaped(|fields|, containers) && !RowsFail(fields, containers, ctx) && containers != []
    ensures var n := |containers| - 1;
            var keep := KeepsRow(fields, containers[n], ctx);
            && Shaped(|fields|, containers[..n]) && !RowsFail(fields, containers[..n], ctx)
            && RowOf(fields, containers[n], ctx, ItemCells(fields, containers[n], ctx))
            && Rows(fields, containers, ctx)
               == Rows(fields, containers[..n], ctx) + (if keep then [ItemCells(fields, containers[n], ctx)] else [])
            && RowIndices(fields, containers, ctx) == RowIndices(fields, containers[..n], ctx) + (if keep then [n] else [])
  {
    RowIndicesStep(fields, containers, ctx);
  }

  /** There is one row per container position that keeps a row. */
  lemma {:induction false} RowsCount(fields: seq<FieldSpec>, containers: seq<Container>, ctx: Context)
    requires Shaped(|fields|, containers) && !RowsFail(fields, containers, ctx)
    ensures |Rows(fields, containers, ctx)| == |RowIndices(fields, containers, ctx)|
    decreases |containers|
  {
    if containers != [] {
      RowsAndIndicesStep(fields, containers, ctx);
      RowsCount(fields, containers[..|containers| - 1], ctx);
    }
  }

  /** Row `j` is the item of the container at position `j` of the kept positions. */
  lemma {:induction false} RowAt(fields: seq<FieldSpec>, containers: seq<Container>, ctx: Context, j: nat)
    requires Shaped(|fields|, containers) && !RowsFail(fields, containers, ctx)
    requires j < |Rows(fields, containers, ctx)|
    ensures j < |RowIndices(fields, containers, ctx)|
    ensures RowOf(fields, containers[RowIndices(fields, containers, ctx)[j]], ctx, Rows(fields, containers, ctx)[j])
    decreases |containers|
  {
    var n := |containers| - 1;
    var init := containers[..n];
    RowsAndIndicesStep(fields, containers, ctx);
    RowsCount(fields, init, ctx);
    if j < |Rows(fields, init, ctx)| {
      RowAt(fields, init, ctx, j);
      var k := RowIndices(fields, init, ctx)[j];
      assert RowIndices(fields, containers, ctx)[j] == k && init[k] == containers[k];
    }
  }

  /** The rows are the items of exactly the containers that hold a value, in
      container order. */
  lemma RowsInOrder(fields: seq<FieldSpec>, containers: seq<Container>, ctx: Context)
    requires Shaped(|fields|, containers) && !RowsFail(fields, containers, ctx)
    ensures |Rows(fields, containers, ctx)| == |RowIndices(fields, containers, ctx)|
    ensures forall j :: 0 <= j < |Rows(fields, containers, ctx)| ==>
              RowOf(fields, containers[RowIndices(fields, containers, ctx)[j]], ctx, Rows(fields, containers, ctx)[j])
  {
    RowsCount(fields, containers, ctx);
    forall j | 0 <= j < |Rows(fields, containers, ctx)|
      ensures RowOf(fields, containers[RowIndices(fields, containers, ctx)[j]], ctx, Rows(fields, containers, ctx)[j])
    {
      RowAt(fields, containers, ctx, j);
    }
  }

  /** The result of `extract_data`: the first raising field aborts it. */
  function ExtractResult(fields: seq<FieldSpec>, containers: seq<Container>, ctx: Context): Result<seq<seq<FieldValue>>>
    requires Shaped(|fields|, containers)
  {
    if RowsFail(fields, containers, ctx) then Err("AttributeError") else Ok(Rows(fields, containers, ctx))
  }

  /** When every container holds a value, every container yields a row. */
  lemma {:induction false} RowsAllKept(fields: seq<FieldSpec>, containers: seq<Container>, ctx: Context)
    requires Shaped(|fields|, containers) && !RowsFail(fields, containers, ctx)
    requires forall k :: 0 <= k < |containers| ==> HasValue(ItemCells(fields, containers[k], ctx))
    ensures |Rows(fields, containers, ctx)| == |containers|
    decreases |containers|
  {
    if containers != [] {
      var n := |containers| - 1;
      var init := containers[..n];
      assert forall k :: 0 <= k < n ==> init[k] == containers[k];
      RowsAllKept(fields, init, ctx);
      var item := ItemCells(fields, containers[n], ctx);
      assert HasValue(item);
      assert Rows(fields, containers, ctx) == Rows(fields, init, ctx) + [item];
    }
  }

  /** When no container holds a value, no row is produced. */
  lemma {:induction false} RowsNoneKept(fields: seq<FieldSpec>, containers: seq<Container>, ctx: Context)
    requires Shaped(|fields|, containers) && !RowsFail(fields, containers, ctx)
    requires forall k :: 0 <= k < |containers| ==> !HasValue(ItemCells(fields, containers[k], ctx))
    ensures Rows(fields, containers, ctx) == []
    decreases |containers|
  {
    if containers != [] {
      var n := |containers| - 1;
      var init := containers[..n];
      assert forall k :: 0 <= k < n ==> init[k] == containers[k];
      RowsNoneKept(fields, init, ctx);
      assert !HasValue(ItemCells(fields, containers[n], ctx));
    }
  }

  /** The innermost loop of `extract_data`: the cast truthy values of one
      field's matched elements, in document order. */
  method CollectValues(elements: seq<Element>, spec: FieldSpec, ctx: Context) returns (values: seq<Value>)
    ensures values == FieldValues(elements, spec, ctx)
  {
    values := [];
    var ei := 0;
    while ei < |elements|
      invariant 0 <= ei <= |elements|
      invariant values == FieldValues(elements[..ei], spec, ctx)
    {
      assert elements[..ei + 1][..ei] == elements[..ei];
      var val := RawValue(elements[ei], spec.attribute, ctx);
      if Truthy(val) {
        values := values + [CastValue(val.value, CastType(spec.dtype), ctx.parsers)];
      }
      ei := ei + 1;
    }
    assert elements[..ei] == elements;
  }

  /** The field loop of `extract_data` for one container: the row, or the
      error its first raising field gives. */
  method BuildItem(fields: seq<FieldSpec>, c: Container, ctx: Context) returns (item: Result<seq<FieldValue>>)
    requires |c| == |fields|
    ensures item.Err? <==> ItemFails(fields, c, ctx)
    ensures item.Ok? ==> item.value == ItemCells(fields, c, ctx)
  {
    var cells: seq<FieldValue> := [];
    var fi := 0;
    while fi < |fields|
      invariant 0 <= fi <= |fields|
      invariant |cells| == fi
      invariant forall f :: 0 <= f < fi ==> Ok(cells[f]) == Cell(fields[f], c[f], ctx)
    {
      var spec := fields[fi];
      var values := CollectValues(c[fi], spec, ctx);
      var cell := FieldResult(values, spec.dtype);
      if cell.Err? {
        assert Cell(fields[fi], c[fi], ctx).Err?;
        return Err(cell.error);
      }
      cells := cells + [cell.value];
      fi := fi + 1;
    }
    assert !ItemFails(fields, c, ctx);
    return Ok(cells);
  }

  /** `extract_data`, after selection: for each container, each field, each
      matched element. */
  method ExtractData(fields: seq<FieldSpec>, containers: seq<Container>, ctx: Context)
    returns (results: Result<seq<seq<FieldValue>>>)
    requires Shaped(|fields|, containers)
    ensures results == ExtractResult(fields, containers, ctx)
    ensures results.Err? <==>
              exists k, f :: 0 <= k < |containers| && 0 <= f < |fields|
                             && fields[f].dtype == Null && FieldValues(containers[k][f], fields[f], ctx) != []
  {
    var rows: seq<seq<FieldValue>> := [];
    var ci := 0;
    while ci < |containers|
      invariant 0 <= ci <= |containers|
      invariant Shaped(|fields|, containers[..ci])
      invariant !RowsFail(fields, containers[..ci], ctx)
      invariant rows == Rows(fields, containers[..ci], ctx)
    {
      var item := BuildItem(fields, containers[ci], ctx);
      if item.Err? {
        assert RowsFail(fields, containers, ctx);
        return Err("AttributeError");
      }
      RowsStep(fields, containers, ci, ctx);
      if HasValue(item.value) {
        rows := rows + [item.value];
      }
      ci := ci + 1;
    }
    assert containers[..ci] == containers;
    results := Ok(rows);
  }

  /** One more container: the rows of the longer prefix extend those of the shorter. */
  lemma RowsStep(fields: seq<FieldSpec>, containers: seq<Container>, m: nat, ctx: Context)
    requires Shaped(|fields|, containers) && m < |containers|
    requires !RowsFail(fields, containers[..m], ctx)
    requires !ItemFails(fields, containers[m], ctx)
    ensures Shaped(|fields|, containers[..m + 1]) && Shaped(|fields|, containers[..m])
    ensures !RowsFail(fields, containers[..m + 1], ctx)
    ensures Rows(fields, containers[..m + 1], ctx)
            == Rows(fields, containers[..m], ctx)
               + (var item := ItemCells(fields, containers[m], ctx); if HasValue(item) then [item] else [])
  {
    var longer := containers[..m + 1];
    assert longer[..m] == containers[..m];
    assert forall k :: 0 <= k < m ==> longer[k] == containers[..m][k];
  }
}
