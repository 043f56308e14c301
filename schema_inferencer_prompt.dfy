/** The endpoint-aware schema-inference prompt: the template gains a rule about
    the endpoint context, and the classifier's result, serialised as indented
    JSON, precedes the numbered HTML blocks. */
module SchemaInferencerPrompt {
  import opened Text
  import SchemaInferencer
  import EndpointClassifier

  /** The two template lines this variant adds after the third rule. */
  const ContextRule: seq<string> := [
    "- Use ENDPOINT CONTEXT to avoid fields that cannot exist",
    "  (e.g., pagination fields for random endpoints)"]

  /** The template, line by line: the plain template with the context rule
      inserted after its line 15. */
  const TemplateLines: seq<string> :=
    SchemaInferencer.TemplateLines[..15] + ContextRule + SchemaInferencer.TemplateLines[15..]

  /** `SCHEMA_INFERENCE_PROMPT` of this variant. */
  const SchemaInferencePrompt: string := Join("\n", TemplateLines)

  // ---------------------------------------------------------------------------
  // json.dumps(endpoint_result, indent=2)
  // ---------------------------------------------------------------------------

  function JsonBool(b: bool): string {
    if b then "true" else "false"
  }

  /** The feature entries in dataclass field order, indented for nesting depth 2. */
  function FeatureEntries(f: EndpointClassifier.EndpointFeatures): seq<string> {
    [ "    \"has_microdata\": " + JsonBool(f.hasMicrodata),
      "    \"has_viewstate\": " + JsonBool(f.hasViewstate),
      "    \"has_table\": " + JsonBool(f.hasTable),
      "    \"has_login_form\": " + JsonBool(f.hasLoginForm),
      "    \"requires_js\": " + JsonBool(f.requiresJs),
      "    \"infinite_scroll\": " + JsonBool(f.infiniteScroll),
      "    \"is_random\": " + JsonBool(f.isRandom),
      "    \"delayed_render\": " + JsonBool(f.delayedRender) ]
  }

  /** The part of the serialisation before the label. */
  const TypeKeyPrefix: string := "{\n  \"type\": \""

  /** The part of the serialisation after the label. */
  function FeaturesJson(f: EndpointClassifier.EndpointFeatures): string {
    "\",\n  \"features\": {\n" + Join(",\n", FeatureEntries(f)) + "\n  }\n}"
  }

  /** `json.dumps({"type": ..., "features": ...}, indent=2)` for the
      dictionary `classify` returns. */
  function EndpointJson(t: EndpointClassifier.EndpointType, f: EndpointClassifier.EndpointFeatures): string {
    TypeKeyPrefix + EndpointClassifier.Label(t) + FeaturesJson(f)
  }

  /** The characters of `s` from `i` up to the next double quote. */
  function ReadString(s: string, i: nat): (r: string)
    ensures '"' !in r
    decreases |s| - i
  {
    if i >= |s| || s[i] == '"' then [] else [s[i]] + ReadString(s, i + 1)
  }

  lemma {:induction false} ReadStringOf(a: string, w: string, b: string)
    requires '"' !in w && |b| > 0 && b[0] == '"'
    ensures ReadString(a + w + b, |a|) == w
    decreases |w|
  {
    if w == [] {
      assert (a + w + b)[|a|] == b[0];
    } else {
      assert (a + w + b)[|a|] == w[0];
      assert a + w + b == (a + [w[0]]) + w[1..] + b;
      ReadStringOf(a + [w[0]], w[1..], b);
    }
  }

  /** The label can be read back from the serialisation: the string value
      after the `"type"` key is the label. */
  lemma EndpointJsonLabel(t: EndpointClassifier.EndpointType, f: EndpointClassifier.EndpointFeatures)
    ensures ReadString(EndpointJson(t, f), |TypeKeyPrefix|) == EndpointClassifier.Label(t)
  {
    ReadStringOf(TypeKeyPrefix, EndpointClassifier.Label(t), FeaturesJson(f));
  }

  /** Different classifications serialise with different labels. */
  lemma EndpointJsonDistinguishesTypes(t1: EndpointClassifier.EndpointType, t2: EndpointClassifier.EndpointType,
                                       f1: EndpointClassifier.EndpointFeatures, f2: EndpointClassifier.EndpointFeatures)
    ensures EndpointJson(t1, f1) == EndpointJson(t2, f2) ==> t1 == t2
  {
    EndpointJsonLabel(t1, f1);
    EndpointJsonLabel(t2, f2);
    EndpointClassifier.LabelsDistinct(t1, t2);
  }

  // ---------------------------------------------------------------------------
  // build_schema_prompt
  // ---------------------------------------------------------------------------

  const ContextHeading: string := "\n\n      ENDPOINT CONTEXT (for guidance only):\n      "
  const SnippetsHeading: string := "\n\n      HTML SNIPPETS:\n      "
  const Trailer: string := "\n    \n    "

  /** Everything before the HTML section: template, endpoint context, snippets heading. */
  function Head(template: string, endpointJson: string): string {
    template + ContextHeading + endpointJson + SnippetsHeading
  }

  /** The prompt around a given template and endpoint serialisation. */
  function Assemble(template: string, endpointJson: string, blocks: seq<string>): string {
    Head(template, endpointJson) + SchemaInferencer.HtmlSection(blocks) + Trailer
  }

  /** `build_schema_prompt` with the endpoint result: template, endpoint
      context, HTML section, in that order. */
  function BuildSchemaPrompt(blocks: seq<string>, t: EndpointClassifier.EndpointType,
                             f: EndpointClassifier.EndpointFeatures): string
  {
    Assemble(SchemaInferencePrompt, EndpointJson(t, f), blocks)
  }

  /** Where the HTML section starts. */
  function SectionStart(template: string, endpointJson: string): nat {
    |Head(template, endpointJson)|
  }

  /** The assembled prompt opens with the template, carries the endpoint
      serialisation verbatim between the two headings (also when there are no
      blocks), holds the HTML section verbatim up to the trailer, and ends with
      the trailer. */
  lemma AssembleLayout(template: string, endpointJson: string, blocks: seq<string>)
    ensures template <= Assemble(template, endpointJson, blocks)
    ensures OccursAt(Assemble(template, endpointJson, blocks), ContextHeading + endpointJson + SnippetsHeading, |template|)
    ensures Assemble(template, endpointJson, blocks)[SectionStart(template, endpointJson)..
              |Assemble(template, endpointJson, blocks)| - |Trailer|] == SchemaInferencer.HtmlSection(blocks)
    ensures EndsWith(Assemble(template, endpointJson, blocks), Trailer)
  {
    var context := ContextHeading + endpointJson + SnippetsHeading;
    var head := Head(template, endpointJson);
    var section := SchemaInferencer.HtmlSection(blocks);
    var r := Assemble(template, endpointJson, blocks);
    assert r == head + section + Trailer;
    assert template <= r && OccursAt(r, context, |template|) by {
      assert OccursAt(head, context, |template|) by {
        assert head[|template|..|template| + |context|] == context;
      }
      assert head[..|template|] == template;
      OccursExtend(head, section + Trailer, context, |template|);
      assert head + (section + Trailer) == r;
    }
    assert r[|head|..|r| - |Trailer|] == section && EndsWith(r, Trailer) by {
      Framed(head, section, Trailer);
    }
  }

  /** Block `i` stands under its header in the assembled prompt, at its
      offset in the HTML section. */
  lemma AssembleBlockAt(template: string, endpointJson: string, blocks: seq<string>, i: nat)
    requires i < |blocks|
    ensures OccursAt(Assemble(template, endpointJson, blocks),
                     SchemaInferencer.BlockHeader(i + 1) + blocks[i],
                     SectionStart(template, endpointJson) + SchemaInferencer.BlockOffset(blocks, i))
  {
    SchemaInferencer.FramedBlockAt(Head(template, endpointJson), blocks, Trailer, i);
  }

  /** The prompt opens with the template, context rule included, carries the
      serialised `classify` result between the two headings, and ends with the
      trailer. */
  lemma PromptLayout(blocks: seq<string>, t: EndpointClassifier.EndpointType,
                     f: EndpointClassifier.EndpointFeatures)
    ensures SchemaInferencePrompt <= BuildSchemaPrompt(blocks, t, f)
    ensures OccursAt(BuildSchemaPrompt(blocks, t, f), ContextHeading + EndpointJson(t, f) + SnippetsHeading,
                     |SchemaInferencePrompt|)
    ensures EndsWith(BuildSchemaPrompt(blocks, t, f), Trailer)
  {
    AssembleLayout(SchemaInferencePrompt, EndpointJson(t, f), blocks);
  }

  /** Every block of the prompt stands under its header, after the endpoint
      context, at its offset in the HTML section. */
  lemma PromptBlockAt(blocks: seq<string>, t: EndpointClassifier.EndpointType,
                      f: EndpointClassifier.EndpointFeatures, i: nat)
    requires i < |blocks|
    ensures OccursAt(BuildSchemaPrompt(blocks, t, f),
                     SchemaInferencer.BlockHeader(i + 1) + blocks[i],
                     SectionStart(SchemaInferencePrompt, EndpointJson(t, f)) + SchemaInferencer.BlockOffset(blocks, i))
  {
    AssembleBlockAt(SchemaInferencePrompt, EndpointJson(t, f), blocks, i);
  }

  /** Text after a string that already ended does not change it. */
  lemma {:induction false} ReadStringAppend(u: string, v: string, i: nat)
    requires i + |ReadString(u, i)| < |u|
    ensures ReadString(u + v, i) == ReadString(u, i)
    decreases |u| - i
  {
    assert (u + v)[i] == u[i];
    if u[i] != '"' {
      ReadStringAppend(u, v, i + 1);
    }
  }

  /** Text before the start does not change the string read. */
  lemma {:induction false} ReadStringShift(p: string, u: string, i: nat)
    ensures ReadString(p + u, |p| + i) == ReadString(u, i)
    decreases |u| - i
  {
    if i < |u| {
      assert (p + u)[|p| + i] == u[i];
      if u[i] != '"' {
        ReadStringShift(p, u, i + 1);
      }
    }
  }

  /** The label is readable after the template, the context heading and the
      `"type"` key, whatever the template. */
  lemma AssembleShowsLabel(template: string, t: EndpointClassifier.EndpointType,
                           f: EndpointClassifier.EndpointFeatures, blocks: seq<string>)
    ensures ReadString(Assemble(template, EndpointJson(t, f), blocks),
                       |template + ContextHeading + TypeKeyPrefix|) == EndpointClassifier.Label(t)
  {
    var json := EndpointJson(t, f);
    var p := template + ContextHeading;
    var i := |p| + |TypeKeyPrefix|;
    EndpointJsonLabel(t, f);
    assert |FeaturesJson(f)| > 0;
    ReadStringShift(p, json, |TypeKeyPrefix|);
    var u1 := p + json;
    ReadStringAppend(u1, SnippetsHeading, i);
    var u2 := u1 + SnippetsHeading;
    ReadStringAppend(u2, SchemaInferencer.HtmlSection(blocks), i);
    var u3 := u2 + SchemaInferencer.HtmlSection(blocks);
    ReadStringAppend(u3, Trailer, i);
  }

  /** The endpoint label is readable from the prompt, right after the template,
      the context heading and the `"type"` key. */
  lemma PromptShowsEndpointType(blocks: seq<string>, t: EndpointClassifier.EndpointType,
                                f: EndpointClassifier.EndpointFeatures)
    ensures ReadString(BuildSchemaPrompt(blocks, t, f),
                       |SchemaInferencePrompt + ContextHeading + TypeKeyPrefix|) == EndpointClassifier.Label(t)
  {
    AssembleShowsLabel(SchemaInferencePrompt, t, f, blocks);
  }
}
