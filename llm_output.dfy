/** Post-processing of model output: the end-of-file sentinel, the truncation
    heuristic, the brace scan that isolates a JSON object, and the check for a
    duplicated main guard. */
module LlmOutput {
  import opened Text
  import opened Wrappers

  /** The line a generated scraper must end with. */
  const Sentinel: string := "# === END OF FILE ==="

  // ---------------------------------------------------------------------------
  // enforce_single_eof
  // ---------------------------------------------------------------------------

  /** `enforce_single_eof`: without the sentinel the code is returned as is;
      with it, everything after its first occurrence is cut and one newline is
      appended, so the result ends with the sentinel line and holds the
      sentinel exactly once. */
  function EnforceSingleEof(code: string): (r: string)
    ensures !Contains(code, Sentinel) ==> r == code
    ensures Contains(code, Sentinel) ==>
              EndsWith(r, Sentinel + "\n")
              && r[..|r| - 1] <= code
              && OccursAt(r, Sentinel, |r| - |Sentinel| - 1)
              && forall i :: OccursAt(r, Sentinel, i) ==> i == |r| - |Sentinel| - 1
  {
    var first := Find(code, Sentinel);
    if first != -1 then
      var r := code[..first + |Sentinel|] + "\n";
      assert r[..|r| - 1] == code[..first + |Sentinel|];
      assert r[first..first + |Sentinel|] == code[first..first + |Sentinel|];
      assert r[|r| - 1] == '\n';
      forall i | OccursAt(r, Sentinel, i)
        ensures i == first
      {
        assert r[i + |Sentinel| - 1] == Sentinel[|Sentinel| - 1] == '=';
        if i <= first {
          assert r[i..i + |Sentinel|] == code[i..i + |Sentinel|];
          assert OccursAt(code, Sentinel, i);
        }
      }
      r
    else code
  }

  /** Enforcing twice is enforcing once. */
  lemma EnforceSingleEofIdempotent(code: string)
    ensures EnforceSingleEof(EnforceSingleEof(code)) == EnforceSingleEof(code)
  {
    var r := EnforceSingleEof(code);
    if Contains(code, Sentinel) {
      var p := |r| - |Sentinel| - 1;
      assert Find(r, Sentinel) == p;
      assert r[..p + |Sentinel|] + "\n" == r;
    }
  }

  // ---------------------------------------------------------------------------
  // looks_truncated
  // ---------------------------------------------------------------------------

  /** The first six listed endings: a block keyword and a space. */
  const KeywordEndings: seq<string> := ["def ", "class ", "async def ", "if ", "for ", "while "]

  /** The listed endings that a text without trailing whitespace can have. */
  const ReachableEndings: seq<string> := ["=", "(", "[", "{", ",", ":", "return", "import", "from"]

  /** The endings that mark a stripped text as cut off, in the listed order. */
  const BadEndings: seq<string> := KeywordEndings + ReachableEndings

  /** `s.endswith(tuple(endings))`. */
  predicate EndsWithAny(s: string, endings: seq<string>) {
    exists k :: 0 <= k < |endings| && EndsWith(s, endings[k])
  }

  /** More opening than closing characters of some bracket kind. */
  predicate Unbalanced(code: string) {
    Count(code, "(") > Count(code, ")") || Count(code, "[") > Count(code, "]")
    || Count(code, "{") > Count(code, "}")
  }

  /** `looks_truncated`: never with the sentinel present; otherwise an
      unmatched opening bracket, or a stripped text ending in one of the listed
      endings. */
  function LooksTruncated(code: string): (r: bool)
    ensures Contains(code, Sentinel) ==> !r
    ensures !Contains(code, Sentinel) && Unbalanced(code) ==> r
    ensures r <==> !Contains(code, Sentinel)
                   && (Unbalanced(code) || EndsWithAny(RStrip(code), ReachableEndings))
  {
    KeywordEndingsUnreachable(code);
    if Contains(code, Sentinel) then false
    else if Count(code, "(") > Count(code, ")") then true
    else if Count(code, "[") > Count(code, "]") then true
    else if Count(code, "{") > Count(code, "}") then true
    else EndsWithAny(RStrip(code), BadEndings)
  }

  /** The six keyword endings end in a space, which `rstrip` has removed: only
      the other nine can ever match. */
  lemma KeywordEndingsUnreachable(code: string)
    ensures EndsWithAny(RStrip(code), BadEndings) <==> EndsWithAny(RStrip(code), ReachableEndings)
  {
    var s := RStrip(code);
    EndsWithAnyConcat(s, KeywordEndings, ReachableEndings);
    NoKeywordEnding(s);
  }

  /** Matching one of `a + b` is matching one of `a` or one of `b`. */
  lemma EndsWithAnyConcat(s: string, a: seq<string>, b: seq<string>)
    ensures EndsWithAny(s, a + b) <==> EndsWithAny(s, a) || EndsWithAny(s, b)
  {
    if EndsWithAny(s, a + b) {
      var k :| 0 <= k < |a + b| && EndsWith(s, (a + b)[k]);
      if k < |a| {
        assert (a + b)[k] == a[k];
      } else {
        assert (a + b)[k] == b[k - |a|];
      }
    }
    if EndsWithAny(s, a) {
      var k :| 0 <= k < |a| && EndsWith(s, a[k]);
      assert (a + b)[k] == a[k];
    }
    if EndsWithAny(s, b) {
      var k :| 0 <= k < |b| && EndsWith(s, b[k]);
      assert (a + b)[k + |a|] == b[k];
    }
  }

  /** A text that does not end in whitespace ends with no keyword ending. */
  lemma NoKeywordEnding(s: string)
    requires |s| == 0 || !IsSpace(s[|s| - 1])
    ensures !EndsWithAny(s, KeywordEndings)
  {
  }

  /** A dangling `for ` is not reported: the listed keyword endings never fire. */
  lemma DanglingKeywordMissed()
    ensures !LooksTruncated("for ")
    ensures LooksTruncatedIntended("for ")
  {
    assert !LooksTruncated("for ") by {
      DanglingForStripped();
      DanglingForBalanced();
      DanglingForNoEnding();
    }
    assert LooksTruncatedIntended("for ") by {
      DanglingForStripped();
      assert EndsWithKeyword("for", Keywords[4]);
    }
  }

  /** `"for"` ends with none of the reachable endings. */
  lemma DanglingForNoEnding()
    ensures !EndsWithAny("for", ReachableEndings)
  {
    assert !EndsWith("for", "from");
  }

  /** `"for "` right-stripped is `"for"`, and holds no sentinel. */
  lemma DanglingForStripped()
    ensures RStrip("for ") == "for"
    ensures !Contains("for ", Sentinel)
  {
    RStripAppended("for", " ");
    assert "for" + " " == "for ";
  }

  /** `"for "` opens no bracket. */
  lemma DanglingForBalanced()
    ensures !Unbalanced("for ")
  {
    CountPositive("for ", "(");
    CountPositive("for ", "[");
    CountPositive("for ", "{");
  }

  /** Code that went through `enforce_single_eof` with a sentinel is never
      reported as truncated. */
  lemma EnforcedCodeIsComplete(code: string)
    requires Contains(code, Sentinel)
    ensures !LooksTruncated(EnforceSingleEof(code))
    ensures !LooksTruncatedIntended(EnforceSingleEof(code))
  {
    var r := EnforceSingleEof(code);
    assert OccursAt(r, Sentinel, |r| - |Sentinel| - 1);
  }

  /** The keyword endings without their trailing space. */
  const Keywords: seq<string> := ["def", "class", "async def", "if", "for", "while"]

  predicate IsIdentifierChar(c: char) {
    'a' <= c <= 'z' || 'A' <= c <= 'Z' || '0' <= c <= '9' || c == '_'
  }

  /** `s` ends with the keyword as a whole word. */
  predicate EndsWithKeyword(s: string, keyword: string) {
    EndsWith(s, keyword) && (|s| == |keyword| || !IsIdentifierChar(s[|s| - |keyword| - 1]))
  }

  /** The truncation check with the keyword endings matched as trailing words
      of the stripped text, which is what listing them evidently intends. */
  function LooksTruncatedIntended(code: string): (r: bool)
    ensures LooksTruncated(code) ==> r
    ensures Contains(code, Sentinel) ==> !r
  {
    var s := RStrip(code);
    LooksTruncated(code)
    || (!Contains(code, Sentinel) && exists k :: 0 <= k < |Keywords| && EndsWithKeyword(s, Keywords[k]))
  }

  /** A line that stops right after a block keyword is reported, whatever came
      before, as long as the sentinel is absent. */
  lemma IntendedCatchesDanglingKeyword(prefix: string, k: nat)
    requires k < |Keywords|
    requires prefix == [] || !IsIdentifierChar(prefix[|prefix| - 1])
    requires !Contains(prefix + Keywords[k] + " ", Sentinel)
    ensures LooksTruncatedIntended(prefix + Keywords[k] + " ")
  {
    var s := prefix + Keywords[k];
    assert RStrip(s + " ") == s by {
      assert s[|s| - 1] == Keywords[k][|Keywords[k]| - 1];
      RStripAppended(s, " ");
    }
    assert EndsWithKeyword(s, Keywords[k]) by {
      assert s[|s| - |Keywords[k]|..] == Keywords[k];
      if |s| > |Keywords[k]| {
        assert s[|s| - |Keywords[k]| - 1] == prefix[|prefix| - 1];
      }
    }
  }

  // ---------------------------------------------------------------------------
  // extract_json, brace-balanced fallback
  // ---------------------------------------------------------------------------

  /** What one character adds to the brace depth. */
  function Delta(c: char): int {
    if c == '{' then 1 else if c == '}' then -1 else 0
  }

  /** Opening minus closing curly braces. */
  function Depth(s: string): int {
    if s == [] then 0 else Depth(s[..|s| - 1]) + Delta(s[|s| - 1])
  }

  /** Scanning one more character of `text` from `start`. */
  lemma DepthStep(text: string, start: nat, i: nat)
    requires start <= i < |text|
    ensures Depth(text[start..i + 1]) == Depth(text[start..i]) + Delta(text[i])
  {
    assert text[start..i + 1][..i - start] == text[start..i];
  }

  /** Every prefix of `text[start..i]` longer than the opening brace leaves a
      brace open. */
  predicate OpenThrough(text: string, start: nat, i: nat)
    requires start <= i <= |text|
  {
    forall j :: start < j <= i ==> Depth(text[start..j]) > 0
  }

  /** The brace-balanced fallback of `extract_json`, up to `json.loads`: the
      text from the first `{` to the first point where every brace opened
      since is closed again. */
  method ExtractJsonCandidate(text: string) returns (r: Result<string>)
    ensures !Contains(text, "{") <==> r == Err("No JSON object found")
    ensures r.Ok? ==>
              var start := Find(text, "{");
              0 <= start < |text| && text[start] == '{'
              && exists e :: start < e <= |text| && r.value == text[start..e]
                             && Depth(r.value) == 0 && OpenThrough(text, start, e - 1)
    ensures r == Err("Unbalanced JSON braces") <==>
              Contains(text, "{") && OpenThrough(text, Find(text, "{"), |text|)
    ensures Contains(text, "{") && !OpenThrough(text, Find(text, "{"), |text|) ==> r.Ok?
  {
    var start := Find(text, "{");
    if start == -1 {
      return Err("No JSON object found");
    }
    assert text[start..start + 1] == "{";
    var depth := 0;
    var i := start;
    while i < |text|
      invariant start <= i <= |text|
      invariant depth == Depth(text[start..i]) && depth >= 0
      invariant i > start ==> depth > 0
      invariant OpenThrough(text, start, i)
    {
      DepthStep(text, start, i);
      if text[i] == '{' {
        depth := depth + 1;
      } else if text[i] == '}' {
        depth := depth - 1;
        if depth == 0 {
          r := Ok(text[start..i + 1]);
          assert start < i + 1 <= |text| && r.value == text[start..i + 1] && Depth(r.value) == 0;
          return;
        }
      }
      OpenStep(text, start, i);
      i := i + 1;
    }
    return Err("Unbalanced JSON braces");
  }

  /** One more character that leaves a brace open. */
  lemma OpenStep(text: string, start: nat, i: nat)
    requires start <= i < |text| && OpenThrough(text, start, i)
    requires Depth(text[start..i + 1]) > 0
    ensures OpenThrough(text, start, i + 1)
  {
  }

  // ---------------------------------------------------------------------------
  // has_multiple_main_blocks
  // ---------------------------------------------------------------------------

  const MainGuard: string := "if __name__ == \"__main__\""

  /** `has_multiple_main_blocks`: the guard occurs twice without overlap. */
  function HasMultipleMainBlocks(code: string): (r: bool)
    ensures r <==> TwoApart(code, MainGuard)
  {
    CountAtLeastTwo(code, MainGuard);
    Count(code, MainGuard) > 1
  }
}
