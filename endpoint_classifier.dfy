/** The endpoint classifier: static signals read from the raw markup, dynamic
    signals from the browser probes, and the first-match rule chain that turns
    the eight signals into one endpoint label. */
module EndpointClassifier {
  import opened Text

  /** The eight signals; `DefaultFeatures` gives the dataclass defaults. */
  datatype EndpointFeatures = EndpointFeatures(
    hasMicrodata: bool,
    hasViewstate: bool,
    hasTable: bool,
    hasLoginForm: bool,
    requiresJs: bool,
    infiniteScroll: bool,
    isRandom: bool,
    delayedRender: bool)

  const DefaultFeatures := EndpointFeatures(false, false, false, false, false, false, false, false)

  /** The eight endpoint labels, in rule order. */
  datatype EndpointType =
    | Viewstate | Login | Random | Scroll | Javascript | Microdata | Tableful | Default

  /** The string the classifier returns for each label. */
  function Label(t: EndpointType): string {
    match t
    case Viewstate => "viewstate"
    case Login => "login"
    case Random => "random"
    case Scroll => "scroll"
    case Javascript => "javascript"
    case Microdata => "microdata"
    case Tableful => "tableful"
    case Default => "default"
  }

  const Labels: set<string> :=
    {"viewstate", "login", "random", "scroll", "javascript", "microdata", "tableful", "default"}

  /** Every label is one of the eight strings, and no two labels share one. */
  lemma LabelsDistinct(a: EndpointType, b: EndpointType)
    ensures Label(a) in Labels
    ensures Label(a) == Label(b) ==> a == b
  {
  }

  /** Position of a rule in the chain (0 is tried first). */
  function Priority(t: EndpointType): nat {
    match t
    case Viewstate => 0
    case Login => 1
    case Random => 2
    case Scroll => 3
    case Javascript => 4
    case Microdata => 5
    case Tableful => 6
    case Default => 7
  }

  /** The condition of each rule, read on its own. */
  predicate Fires(f: EndpointFeatures, t: EndpointType) {
    match t
    case Viewstate => f.hasViewstate
    case Login => f.hasLoginForm
    case Random => f.isRandom
    case Scroll => f.infiniteScroll
    case Javascript => f.requiresJs || f.delayedRender
    case Microdata => f.hasMicrodata
    case Tableful => f.hasTable
    case Default => true
  }

  /** `_classify`: the first rule whose condition holds decides the label. */
  function Classify(f: EndpointFeatures): (r: EndpointType)
    ensures Fires(f, r)
    ensures forall t :: Priority(t) < Priority(r) ==> !Fires(f, t)
  {
    if f.hasViewstate then Viewstate
    else if f.hasLoginForm then Login
    else if f.isRandom then Random
    else if f.infiniteScroll then Scroll
    else if f.requiresJs || f.delayedRender then Javascript
    else if f.hasMicrodata then Microdata
    else if f.hasTable then Tableful
    else Default
  }

  /** The first-match characterisation determines the label: any label whose
      rule fires while no earlier rule fires is the one `Classify` returns. */
  lemma ClassifyIsFirstMatch(f: EndpointFeatures, t: EndpointType)
    requires Fires(f, t)
    requires forall u :: Priority(u) < Priority(t) ==> !Fires(f, u)
    ensures Classify(f) == t
  {
    var r := Classify(f);
    assert Fires(f, r) && Fires(f, t);
  }

  /** The priority properties of the chain, each whatever the other flags are. */
  lemma ClassifyPriorities(f: EndpointFeatures)
    ensures f.hasViewstate ==> Classify(f) == Viewstate
    ensures !f.hasViewstate && f.hasLoginForm ==> Classify(f) == Login
    ensures !f.hasViewstate && !f.hasLoginForm && f.isRandom ==> Classify(f) == Random
    ensures !f.hasViewstate && !f.hasLoginForm && !f.isRandom && f.infiniteScroll
            ==> Classify(f) == Scroll
    ensures !f.hasViewstate && !f.hasLoginForm && !f.isRandom && !f.infiniteScroll
            ==> (Classify(f) == Javascript <==> f.requiresJs || f.delayedRender)
    ensures !f.hasViewstate && !f.hasLoginForm && !f.isRandom && !f.infiniteScroll
            && !f.requiresJs && !f.delayedRender && f.hasMicrodata
            ==> Classify(f) == Microdata
    ensures f == DefaultFeatures ==> Classify(f) == Default
  {
  }

  /** The signals of the raw markup that the classifier reads from the parsed
      document (the CSS selections themselves are not modelled). */
  datatype RawDom = RawDom(
    hasItemscopeOrItemprop: bool,    // soup.select("[itemscope], [itemprop]") is non-empty
    hasTableElement: bool,           // soup.find("table") found one
    hasPasswordInput: bool,          // input[type='password']
    hasCsrfInput: bool)              // input whose name contains "csrf", any case

  /** `_static_features`: the four structural signals; the four dynamic ones
      keep their defaults. */
  function StaticFeatures(html: string, dom: RawDom): (f: EndpointFeatures)
    ensures f.hasViewstate <==> Contains(html, "__VIEWSTATE") || Contains(html, "__EVENTVALIDATION")
    ensures f.hasMicrodata == dom.hasItemscopeOrItemprop && f.hasTable == dom.hasTableElement
    ensures f.hasLoginForm == (dom.hasPasswordInput || dom.hasCsrfInput)
    ensures !f.requiresJs && !f.infiniteScroll && !f.isRandom && !f.delayedRender
  {
    DefaultFeatures.(
      hasMicrodata := dom.hasItemscopeOrItemprop,
      hasViewstate := Find(html, "__VIEWSTATE") != -1 || Find(html, "__EVENTVALIDATION") != -1,
      hasTable := dom.hasTableElement,
      hasLoginForm := dom.hasPasswordInput || dom.hasCsrfInput)
  }

  /** What the browser and the second raw fetch report. `page.content()` twice,
      `document.body.scrollHeight` before and after scrolling, and the body of
      a second direct request. */
  datatype Probes = Probes(
    rendered: string,
    later: string,
    height1: int,
    height2: int,
    secondRaw: string)

  /** The signals `_analyze` reports: the static ones, then the four dynamic
      ones overwritten in probe order. Digests are compared as the strings
      they digest. */
  function AnalyzedFeatures(raw: string, dom: RawDom, probes: Probes): (f: EndpointFeatures)
    ensures f.hasMicrodata == StaticFeatures(raw, dom).hasMicrodata
    ensures f.hasViewstate == StaticFeatures(raw, dom).hasViewstate
    ensures f.hasTable == StaticFeatures(raw, dom).hasTable
    ensures f.hasLoginForm == StaticFeatures(raw, dom).hasLoginForm
    ensures f.requiresJs <==> (|probes.rendered| as real) > (|raw| as real) * 1.2
    ensures f.delayedRender <==> probes.rendered != probes.later
    ensures f.infiniteScroll <==> probes.height2 > probes.height1
    ensures f.isRandom <==> raw != probes.secondRaw
  {
    StaticFeatures(raw, dom).(
      requiresJs := (|probes.rendered| as real) > (|raw| as real) * 1.2,
      delayedRender := probes.rendered != probes.later,
      infiniteScroll := probes.height2 > probes.height1,
      isRandom := raw != probes.secondRaw)
  }

  /** `_analyze`: start from the static signals, then overwrite the four
      dynamic ones in probe order. */
  method Analyze(raw: string, dom: RawDom, probes: Probes) returns (features: EndpointFeatures)
    ensures features == AnalyzedFeatures(raw, dom, probes)
  {
    features := StaticFeatures(raw, dom);
    features := features.(requiresJs := (|probes.rendered| as real) > (|raw| as real) * 1.2);
    features := features.(delayedRender := probes.rendered != probes.later);
    features := features.(infiniteScroll := probes.height2 > probes.height1);
    features := features.(isRandom := raw != probes.secondRaw);
  }

  /** The record `classify` returns: the label and the signals. */
  datatype ClassifyResult = ClassifyResult(endpointType: string, features: EndpointFeatures)

  /** `classify`: analyse, then label. A raw page carrying a view-state marker
      is "viewstate" whatever the probes report; without view state or a login
      form, two different raw fetches make the endpoint "random". */
  method ClassifyEndpoint(raw: string, dom: RawDom, probes: Probes) returns (result: ClassifyResult)
    ensures result.features == AnalyzedFeatures(raw, dom, probes)
    ensures result.endpointType == Label(Classify(result.features))
    ensures result.endpointType in Labels
    ensures Contains(raw, "__VIEWSTATE") ==> result.endpointType == "viewstate"
    ensures Contains(raw, "__EVENTVALIDATION") ==> result.endpointType == "viewstate"
    ensures (!StaticFeatures(raw, dom).hasViewstate && !StaticFeatures(raw, dom).hasLoginForm
             && raw != probes.secondRaw) ==> result.endpointType == "random"
    ensures result.features.isRandom <==> raw != probes.secondRaw
  {
    var features := Analyze(raw, dom, probes);
    LabelsDistinct(Classify(features), Classify(features));
    result := ClassifyResult(Label(Classify(features)), features);
  }

  /** Scenario: scripts and a table, nothing else: the script rule comes first. */
  lemma JavascriptBeforeTable(f: EndpointFeatures)
    requires f == DefaultFeatures.(requiresJs := true, hasTable := true)
    ensures Label(Classify(f)) == "javascript"
  {
  }
}
