/** The schema-inference prompt: the selected HTML blocks, numbered from 1,
    appended to a fixed instruction template. */
module SchemaInferencer {
  import opened Text

  /** The instruction template, line by line. */
  const TemplateLines: seq<string> := [
    "",
    "ROLE:",
    "You are a web data analyst specializing in reverse-engineering website structures.",
    "",
    "TASK:",
    "Given HTML snippets from a webpage, identify:",
    "1. The main repeating data entity (if any)",
    "2. The fields inside each entity",
    "3. Robust CSS or XPath selectors for each field",
    "4. The expected data type of each field",
    "",
    "RULES:",
    "- Do NOT generate scraping code",
    "- Prefer stable selectors (avoid dynamic IDs)",
    "- Assume the site structure may change slightly",
    "",
    "OUTPUT FORMAT (JSON ONLY):",
    "{",
    "  \"entity\": \"...\",",
    "  \"container_selector\": \"...\",",
    "  \"fields\": {",
    "    \"field_name\": {",
    "      \"selector\": \"...\",",
    "      \"attribute\": null | \"href\" | \"src\",",
    "      \"type\": \"string | number | date | url\"",
    "    }",
    "  }",
    "}",
    ""]

  /** `SCHEMA_INFERENCE_PROMPT`: the template lines joined by newlines. */
  const SchemaInferencePrompt: string := Join("\n", TemplateLines)

  /** `f"### BLOCK {n}\n"`. */
  function BlockHeader(n: nat): string {
    "### BLOCK " + NatToString(n) + "\n"
  }

  /** Different block numbers give different headers. */
  lemma BlockHeadersDistinct(a: nat, b: nat)
    ensures BlockHeader(a) == BlockHeader(b) ==> a == b
  {
    var ha, hb := BlockHeader(a), BlockHeader(b);
    assert ha[10..|ha| - 1] == NatToString(a);
    assert hb[10..|hb| - 1] == NatToString(b);
    NatToStringInjective(a, b);
  }

  /** Each block under its header, numbered from 1. */
  function RenderBlocks(blocks: seq<string>): seq<string> {
    seq(|blocks|, i requires 0 <= i < |blocks| => BlockHeader(i + 1) + blocks[i])
  }

  /** `html_section`: the rendered blocks separated by blank lines. */
  function HtmlSection(blocks: seq<string>): string {
    Join("\n\n", RenderBlocks(blocks))
  }

  /** Where block `i`, with its header, starts in the section. */
  function BlockOffset(blocks: seq<string>, i: nat): nat
    requires i <= |blocks|
  {
    JoinOffset("\n\n", RenderBlocks(blocks), i)
  }

  /** Block `i` stands verbatim under its own header. */
  lemma BlockAt(blocks: seq<string>, i: nat)
    requires i < |blocks|
    ensures OccursAt(HtmlSection(blocks), BlockHeader(i + 1) + blocks[i], BlockOffset(blocks, i))
  {
    JoinItemAt("\n\n", RenderBlocks(blocks), i);
  }

  /** Every block stands verbatim under its own header. */
  lemma HtmlSectionBlocks(blocks: seq<string>)
    ensures forall i :: 0 <= i < |blocks| ==>
              OccursAt(HtmlSection(blocks), BlockHeader(i + 1) + blocks[i], BlockOffset(blocks, i))
  {
    forall i | 0 <= i < |blocks|
      ensures OccursAt(HtmlSection(blocks), BlockHeader(i + 1) + blocks[i], BlockOffset(blocks, i))
    {
      BlockAt(blocks, i);
    }
  }

  /** A blank line follows every block but the last. */
  lemma HtmlSectionSeparators(blocks: seq<string>)
    ensures forall i :: 0 <= i < |blocks| - 1 ==>
              OccursAt(HtmlSection(blocks), "\n\n", BlockOffset(blocks, i) + |BlockHeader(i + 1) + blocks[i]|)
  {
    var rendered := RenderBlocks(blocks);
    forall i | 0 <= i < |blocks| - 1
      ensures OccursAt(HtmlSection(blocks), "\n\n", BlockOffset(blocks, i) + |BlockHeader(i + 1) + blocks[i]|)
    {
      JoinSeparatorAt("\n\n", rendered, i);
      assert rendered[i] == BlockHeader(i + 1) + blocks[i];
    }
  }

  /** The last block ends the section. */
  lemma HtmlSectionLength(blocks: seq<string>)
    requires |blocks| > 0
    ensures |HtmlSection(blocks)| + 2 == BlockOffset(blocks, |blocks|)
  {
    JoinLength("\n\n", RenderBlocks(blocks));
  }

  /** Blocks appear in list order, none overlapping the next. */
  lemma HtmlSectionOrder(blocks: seq<string>)
    ensures forall i, j :: 0 <= i < j < |blocks| ==>
              BlockOffset(blocks, i) + |BlockHeader(i + 1) + blocks[i]| < BlockOffset(blocks, j)
  {
    forall i, j | 0 <= i < j < |blocks|
      ensures BlockOffset(blocks, i) + |BlockHeader(i + 1) + blocks[i]| < BlockOffset(blocks, j)
    {
      JoinOffsetIncreasing("\n\n", RenderBlocks(blocks), i, j);
    }
  }

  /** What precedes the section in the prompt. */
  const SnippetsHeading: string := "\n\nHTML SNIPPETS:\n"

  /** `build_schema_prompt`: the template, the snippets heading, the section
      and a final newline; the section can be read back from the prompt. */
  function BuildSchemaPrompt(blocks: seq<string>): (r: string)
    ensures SchemaInferencePrompt + SnippetsHeading <= r
    ensures |r| == |SchemaInferencePrompt| + |SnippetsHeading| + |HtmlSection(blocks)| + 1
    ensures r[|SchemaInferencePrompt| + |SnippetsHeading|..|r| - 1] == HtmlSection(blocks)
    ensures r[|r| - 1] == '\n'
  {
    var head := SchemaInferencePrompt + SnippetsHeading;
    var r := head + HtmlSection(blocks) + "\n";
    assert r[|head|..|r| - 1] == HtmlSection(blocks);
    r
  }

  /** Blocks framed by any head and tail keep their layout, shifted by the head. */
  lemma FramedSectionBlocks(head: string, blocks: seq<string>, tail: string)
    ensures forall i :: 0 <= i < |blocks| ==>
              OccursAt(head + HtmlSection(blocks) + tail,
                       BlockHeader(i + 1) + blocks[i],
                       |head| + BlockOffset(blocks, i))
  {
    forall i | 0 <= i < |blocks|
      ensures OccursAt(head + HtmlSection(blocks) + tail,
                       BlockHeader(i + 1) + blocks[i],
                       |head| + BlockOffset(blocks, i))
    {
      FramedBlockAt(head, blocks, tail, i);
    }
  }

  /** Block `i` under its header, in a section framed by `head` and `tail`. */
  lemma FramedBlockAt(head: string, blocks: seq<string>, tail: string, i: nat)
    requires i < |blocks|
    ensures OccursAt(head + HtmlSection(blocks) + tail, BlockHeader(i + 1) + blocks[i], |head| + BlockOffset(blocks, i))
  {
    BlockAt(blocks, i);
    OccursFramed(head, HtmlSection(blocks), tail, BlockHeader(i + 1) + blocks[i], BlockOffset(blocks, i));
  }


  /** Every block appears in the prompt under its header. */
  lemma PromptShowsEveryBlock(blocks: seq<string>)
    ensures forall i :: 0 <= i < |blocks| ==>
              OccursAt(BuildSchemaPrompt(blocks), BlockHeader(i + 1) + blocks[i],
                       |SchemaInferencePrompt + SnippetsHeading| + BlockOffset(blocks, i))
  {
    FramedSectionBlocks(SchemaInferencePrompt + SnippetsHeading, blocks, "\n");
  }

  /** Without blocks the prompt ends with the heading and an empty line. */
  lemma EmptyPrompt()
    ensures BuildSchemaPrompt([]) == SchemaInferencePrompt + SnippetsHeading + "\n"
  {
    assert RenderBlocks([]) == [];
  }
}
