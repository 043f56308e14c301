/** Content-block selection: the navigation and category-tree heuristics, the
    block score, and the filter / stable sort / fingerprint de-duplication that
    picks the fragments shown to the schema-inference prompt. */
module ContentBlocks {
  import opened Text
  import opened Wrappers

  /** A parsed element, reduced to the facts the heuristics read from it. */
  datatype Node = Node(
    name: string,                  // tag.name
    text: string,                  // tag.get_text(strip=True)
    spacedText: string,            // tag.get_text(" ", strip=True)
    linkCount: nat,                // len(tag.find_all("a"))
    imageCount: nat,               // len(tag.find_all("img"))
    linkTextLength: nat,           // sum of len(a.get_text(strip=True)) over those links
    childTags: seq<string>,        // names of the direct child elements, in order
    style: string,                 // str(tag.get("style", ""))
    serialized: string,            // str(tag)
    listCount: nat,                // len(tag.find_all(["ul", "ol"]))
    itemCount: nat,                // len(tag.find_all("li"))
    firstHeading: Option<string>)  // get_text() of tag.find(["h1", "h2", "h3", "h4"])

  // ---------------------------------------------------------------------------
  // Keyword matching
  // ---------------------------------------------------------------------------

  const NavKeywords: seq<string> := [
    "login", "register", "my account", "sign in", "sign up", "logout",
    "terms of use", "privacy policy", "copyright", "sitemap", "facebook",
    "twitter", "instagram", "linkedin", "follow us", "account", "profile",
    "wishlist", "favorite", "cart", "basket", "checkout",
    "sipari\U{15F}", "al\U{131}\U{15F}veri\U{15F}", "favori"]

  const CategoryKeywords: seq<string> :=
    ["category", "categories", "department", "browse", "refine", "filter"]

  /** `sum(1 for k in keywords if k in text)`. */
  function MatchCount(keywords: seq<string>, text: string): (r: nat)
    ensures r <= |keywords|
  {
    if keywords == [] then 0
    else (if Contains(text, keywords[0]) then 1 else 0) + MatchCount(keywords[1..], text)
  }

  /** Some keyword of the list occurs in `text` exactly when the count is positive. */
  lemma {:induction false} MatchCountOne(keywords: seq<string>, text: string)
    ensures MatchCount(keywords, text) >= 1 <==>
            exists i :: 0 <= i < |keywords| && Contains(text, keywords[i])
    decreases |keywords|
  {
    if keywords != [] {
      MatchCountOne(keywords[1..], text);
      if exists i :: 0 <= i < |keywords| && Contains(text, keywords[i]) {
        var i :| 0 <= i < |keywords| && Contains(text, keywords[i]);
        if i > 0 {
          assert keywords[1..][i - 1] == keywords[i];
        }
      }
      if exists i :: 0 <= i < |keywords[1..]| && Contains(text, keywords[1..][i]) {
        var i :| 0 <= i < |keywords[1..]| && Contains(text, keywords[1..][i]);
        assert keywords[i + 1] == keywords[1..][i];
      }
    }
  }

  /** Two keywords in the text, counted once each, are exactly two distinct
      positions of the keyword list that occur. */
  lemma {:induction false} MatchCountTwo(keywords: seq<string>, text: string)
    ensures MatchCount(keywords, text) >= 2 <==>
            exists i, j :: 0 <= i < j < |keywords| && Contains(text, keywords[i]) && Contains(text, keywords[j])
    decreases |keywords|
  {
    if keywords != [] {
      var tail := keywords[1..];
      MatchCountTwo(tail, text);
      MatchCountOne(tail, text);
      if MatchCount(keywords, text) >= 2 {
        if Contains(text, keywords[0]) {
          var j :| 0 <= j < |tail| && Contains(text, tail[j]);
          assert Contains(text, keywords[0]) && Contains(text, keywords[j + 1]);
        } else {
          var i, j :| 0 <= i < j < |tail| && Contains(text, tail[i]) && Contains(text, tail[j]);
          assert Contains(text, keywords[i + 1]) && Contains(text, keywords[j + 1]);
        }
      }
      if exists i, j :: 0 <= i < j < |keywords| && Contains(text, keywords[i]) && Contains(text, keywords[j]) {
        var i, j :| 0 <= i < j < |keywords| && Contains(text, keywords[i]) && Contains(text, keywords[j]);
        assert Contains(text, tail[j - 1]);
        if i > 0 {
          assert Contains(text, tail[i - 1]);
        }
      }
    }
  }

  /** `any(k in text for k in keywords)`. */
  function AnyContained(keywords: seq<string>, text: string): (r: bool)
    ensures r <==> exists k :: 0 <= k < |keywords| && Contains(text, keywords[k])
  {
    MatchCountOne(keywords, text);
    MatchCount(keywords, text) >= 1
  }

  // ---------------------------------------------------------------------------
  // is_navigation_block, is_category_tree
  // ---------------------------------------------------------------------------

  /** Two different navigation keywords occur in the text. */
  predicate TwoNavKeywords(text: string) {
    exists i, j :: 0 <= i < j < |NavKeywords| && Contains(text, NavKeywords[i]) && Contains(text, NavKeywords[j])
  }

  /** `is_navigation_block`: never with more than two images; otherwise a
      nav/footer landmark, a short image-free block of three or more links,
      or text holding two different navigation keywords. */
  function IsNavigationBlock(n: Node): (r: bool)
    ensures n.imageCount > 2 ==> !r
    ensures r <==> n.imageCount <= 2 &&
                   (n.name == "nav" || n.name == "footer"
                    || (n.linkCount >= 3 && |n.spacedText| < 200 && n.imageCount == 0)
                    || TwoNavKeywords(ToLower(n.spacedText)))
  {
    var text := ToLower(n.spacedText);
    MatchCountTwo(NavKeywords, text);
    if n.imageCount > 2 then false
    else if n.name in {"nav", "footer"} then true
    else if n.linkCount > 0 && |text| < 200 && n.linkCount >= 3 && n.imageCount == 0 then true
    else MatchCount(NavKeywords, text) >= 2
  }

  /** "my account" alone marks a block as navigation: it also contains "account". */
  lemma MyAccountIsNavigation(n: Node)
    requires n.imageCount <= 2 && Contains(ToLower(n.spacedText), "my account")
    ensures IsNavigationBlock(n)
  {
    var text := ToLower(n.spacedText);
    assert OccursAt("my account", "account", 3);
    ContainsWithin(text, "my account", "account");
    assert NavKeywords[2] == "my account" && NavKeywords[15] == "account";
    assert TwoNavKeywords(text);
  }

  /** "favorite" alone marks a block as navigation: it also contains "favori". */
  lemma FavoriteIsNavigation(n: Node)
    requires n.imageCount <= 2 && Contains(ToLower(n.spacedText), "favorite")
    ensures IsNavigationBlock(n)
  {
    var text := ToLower(n.spacedText);
    assert OccursAt("favorite", "favori", 0);
    ContainsWithin(text, "favorite", "favori");
    assert NavKeywords[18] == "favorite" && NavKeywords[24] == "favori";
    assert TwoNavKeywords(text);
  }

  /** `is_category_tree`: an image-free block with lists, at least three list
      items, and a first heading that names a category-like word. */
  function IsCategoryTree(n: Node): (r: bool)
    ensures r <==> n.imageCount == 0 && n.listCount > 0 && n.itemCount >= 3 &&
                   n.firstHeading.Some? &&
                   exists k :: 0 <= k < |CategoryKeywords| &&
                               Contains(ToLower(n.firstHeading.value), CategoryKeywords[k])
  {
    if n.imageCount > 0 then false
    else if n.listCount == 0 then false
    else if n.itemCount < 3 then false
    else match n.firstHeading
      case Some(h) => AnyContained(CategoryKeywords, ToLower(h))
      case None => false
  }

  // ---------------------------------------------------------------------------
  // score_content_block
  // ---------------------------------------------------------------------------

  /** `tags.count(x)`. */
  function Occurrences(tags: seq<string>, x: string): (r: nat)
    ensures r > 0 ==> x in tags
  {
    if tags == [] then 0 else (if tags[0] == x then 1 else 0) + Occurrences(tags[1..], x)
  }

  /** The largest `tags.count(tags[k])` for `k < m`. */
  function MostFrequentCount(tags: seq<string>, m: nat): (r: nat)
    requires m <= |tags|
    ensures forall k :: 0 <= k < m ==> Occurrences(tags, tags[k]) <= r
    ensures m > 0 ==> exists k :: 0 <= k < m && Occurrences(tags, tags[k]) == r
    ensures m == 0 ==> r == 0
  {
    if m == 0 then 0
    else
      var c := Occurrences(tags, tags[m - 1]);
      var rest := MostFrequentCount(tags, m - 1);
      if c > rest then c else rest
  }

  /** `child_tags.count(max(set(child_tags), key=child_tags.count))`: how often
      the most frequent child tag occurs (0 without children). */
  function MaxChildCount(tags: seq<string>): (r: nat)
    ensures forall x :: Occurrences(tags, x) <= r
    ensures |tags| > 0 ==> exists k :: 0 <= k < |tags| && Occurrences(tags, tags[k]) == r
    ensures |tags| == 0 ==> r == 0
  {
    var r := MostFrequentCount(tags, |tags|);
    assert forall x :: Occurrences(tags, x) > 0 ==> exists k :: 0 <= k < |tags| && tags[k] == x;
    r
  }

  function Min(a: real, b: real): real {
    if a <= b then a else b
  }

  /** `score_content_block`: text volume capped at 5, 2 per image, 1.5 per
      repeated child when the most frequent child tag occurs more than three
      times, and 5 off for an image-free block whose link text exceeds 70% of
      its text. Empty text scores 0. */
  function ScoreContentBlock(n: Node): (r: real)
    ensures |n.spacedText| == 0 ==> r == 0.0
    ensures |n.spacedText| > 0 ==>
              -5.0 < r <= 5.0 + 2.0 * n.imageCount as real + 1.5 * MaxChildCount(n.childTags) as real
    ensures |n.spacedText| > 0 && n.imageCount > 0 ==> r > 2.0
  {
    var textLen := |n.spacedText|;
    if textLen == 0 then 0.0
    else
      var volume := Min(textLen as real / 200.0, 5.0);
      var visual := n.imageCount as real * 2.0;
      var count := MaxChildCount(n.childTags);
      var structure := if count > 3 then count as real * 1.5 else 0.0;
      var linkRatio := n.linkTextLength as real / textLen as real;
      var penalty := if linkRatio > 0.7 && n.imageCount == 0 then 5.0 else 0.0;
      volume + visual + structure - penalty
  }

  /** A block with text whose children repeat one tag at least four times
      outranks an image-free link list without such repetition. */
  lemma RepeatingGridOutranksLinkList(grid: Node, links: Node)
    requires |grid.spacedText| > 0 && MaxChildCount(grid.childTags) > 3
    requires |links.spacedText| > 0 && links.imageCount == 0 && MaxChildCount(links.childTags) <= 3
    requires links.linkTextLength as real / |links.spacedText| as real > 0.7
    ensures ScoreContentBlock(grid) > ScoreContentBlock(links)
  {
    assert ScoreContentBlock(links) <= 0.0;
    assert ScoreContentBlock(grid) > 1.0;
  }

  // ---------------------------------------------------------------------------
  // extract_candidate_blocks
  // ---------------------------------------------------------------------------

  /** `"display:none" in str(style).replace(" ", "").lower()`. */
  predicate IsHidden(n: Node) {
    Contains(ToLower(RemoveSpaces(n.style)), "display:none")
  }

  /** Fewer than 30 stripped characters and no image. */
  predicate IsTooSmall(n: Node) {
    |n.text| < 30 && n.imageCount == 0
  }

  /** The three filters a candidate must pass to be scored. */
  predicate Keep(n: Node) {
    !IsNavigationBlock(n) && !IsHidden(n) && !IsTooSmall(n)
  }

  /** The score a kept candidate is ranked by: halved for a serialisation
      longer than 100 000 characters. */
  function BlockScore(n: Node): real {
    var s := ScoreContentBlock(n);
    if |n.serialized| > 100_000 then s * 0.5 else s
  }

  /** An entry of `scored`: the score and the node, plus the node's position
      among the candidates (what a stable sort keeps for equal scores). */
  datatype Ranked = Ranked(score: real, pos: nat, node: Node)

  /** The `scored` list after the first loop over the candidates. */
  function ScoredFrom(cands: seq<Node>): seq<Ranked>
    decreases |cands|
  {
    if cands == [] then []
    else
      var last := cands[|cands| - 1];
      ScoredFrom(cands[..|cands| - 1])
      + (if Keep(last) then [Ranked(BlockScore(last), |cands| - 1, last)] else [])
  }

  /** `e` records a kept candidate with its rank score. */
  predicate ScoredEntry(cands: seq<Node>, e: Ranked) {
    e.pos < |cands| && e.node == cands[e.pos] && Keep(e.node) && e.score == BlockScore(e.node)
  }

  predicate IncreasingPositions(s: seq<Ranked>) {
    forall i, j :: 0 <= i < j < |s| ==> s[i].pos < s[j].pos
  }

  /** The scoring loop keeps exactly the candidates that pass the filters, in
      document order, each with its rank score. */
  lemma ScoredFromFacts(cands: seq<Node>)
    ensures forall e :: e in ScoredFrom(cands) ==> ScoredEntry(cands, e)
    ensures IncreasingPositions(ScoredFrom(cands))
    ensures forall p :: 0 <= p < |cands| && Keep(cands[p]) ==>
              exists e :: e in ScoredFrom(cands) && e.pos == p
  {
    ScoredFromSound(cands);
    ScoredFromIncreasing(cands);
    ScoredFromComplete(cands);
  }

  /** Every scored entry records a kept candidate at its position. */
  lemma {:induction false} ScoredFromSound(cands: seq<Node>)
    ensures forall e :: e in ScoredFrom(cands) ==> ScoredEntry(cands, e)
    decreases |cands|
  {
    if cands != [] {
      var init := cands[..|cands| - 1];
      ScoredFromSound(init);
      forall e | e in ScoredFrom(init)
        ensures ScoredEntry(cands, e)
      {
        assert ScoredEntry(init, e);
        assert init[e.pos] == cands[e.pos];
      }
    }
  }

  /** Scored entries follow document order. */
  lemma {:induction false} ScoredFromIncreasing(cands: seq<Node>)
    ensures IncreasingPositions(ScoredFrom(cands))
    decreases |cands|
  {
    if cands != [] {
      var init := cands[..|cands| - 1];
      ScoredFromIncreasing(init);
      ScoredFromSound(init);
      var prev := ScoredFrom(init);
      forall i | 0 <= i < |prev|
        ensures prev[i].pos < |cands| - 1
      {
        assert prev[i] in prev;
      }
    }
  }

  /** Every kept candidate has an entry. */
  lemma {:induction false} ScoredFromComplete(cands: seq<Node>)
    ensures forall p :: 0 <= p < |cands| && Keep(cands[p]) ==>
              exists e :: e in ScoredFrom(cands) && e.pos == p
    decreases |cands|
  {
    if cands != [] {
      var init := cands[..|cands| - 1];
      ScoredFromComplete(init);
      forall p | 0 <= p < |cands| && Keep(cands[p])
        ensures exists e :: e in ScoredFrom(cands) && e.pos == p
      {
        if p < |cands| - 1 {
          assert init[p] == cands[p];
          var e :| e in ScoredFrom(init) && e.pos == p;
          assert e in ScoredFrom(cands);
        } else {
          assert Ranked(BlockScore(cands[p]), p, cands[p]) in ScoredFrom(cands);
        }
      }
    }
  }

  /** `a` comes before `b` in a stable sort by descending score. */
  predicate RankedBefore(a: Ranked, b: Ranked) {
    a.score > b.score || (a.score == b.score && a.pos < b.pos)
  }

  predicate StrictlyRanked(s: seq<Ranked>) {
    forall i, j :: 0 <= i < j < |s| ==> RankedBefore(s[i], s[j])
  }

  /** Inserts `x` before the first entry whose score does not exceed its own. */
  function InsertDesc(x: Ranked, t: seq<Ranked>): seq<Ranked>
    decreases |t|
  {
    if t == [] || t[0].score <= x.score then [x] + t else [t[0]] + InsertDesc(x, t[1..])
  }

  /** `scored.sort(key=score, reverse=True)`: Python's stable sort, descending. */
  function SortDesc(s: seq<Ranked>): seq<Ranked>
    decreases |s|
  {
    if s == [] then [] else InsertDesc(s[0], SortDesc(s[1..]))
  }

  /** An entry ranked before every entry of a ranked list can lead it. */
  lemma ConsRanked(a: Ranked, r: seq<Ranked>)
    requires StrictlyRanked(r)
    requires forall j :: 0 <= j < |r| ==> RankedBefore(a, r[j])
    ensures StrictlyRanked([a] + r)
  {
    var s := [a] + r;
    forall i, j | 0 <= i < j < |s|
      ensures RankedBefore(s[i], s[j])
    {
      assert s[j] == r[j - 1];
      if i > 0 {
        assert s[i] == r[i - 1];
      }
    }
  }

  /** Insertion adds exactly `x`. */
  lemma {:induction false} InsertDescPerm(x: Ranked, t: seq<Ranked>)
    ensures multiset(InsertDesc(x, t)) == multiset(t) + multiset{x}
    decreases |t|
  {
    if t != [] && t[0].score > x.score {
      InsertDescPerm(x, t[1..]);
      assert t == [t[0]] + t[1..];
    }
  }

  /** Every entry after insertion is `x` or came from `t`. */
  lemma {:induction false} InsertDescMembers(x: Ranked, t: seq<Ranked>)
    ensures forall e :: e in InsertDesc(x, t) ==> e == x || e in t
    decreases |t|
  {
    if t != [] && t[0].score > x.score {
      InsertDescMembers(x, t[1..]);
    }
  }

  /** Inserting an entry that comes earlier in the document than every entry
      of a ranked list keeps it ranked. */
  lemma {:induction false} InsertDescRanked(x: Ranked, t: seq<Ranked>)
    requires StrictlyRanked(t)
    requires forall j :: 0 <= j < |t| ==> x.pos < t[j].pos
    ensures StrictlyRanked(InsertDesc(x, t))
    decreases |t|
  {
    if t == [] || t[0].score <= x.score {
      forall j | 0 <= j < |t|
        ensures RankedBefore(x, t[j])
      {
        if j > 0 {
          assert RankedBefore(t[0], t[j]);
        }
      }
      ConsRanked(x, t);
    } else {
      var tail := t[1..];
      forall i, j | 0 <= i < j < |tail|
        ensures RankedBefore(tail[i], tail[j])
      {
        assert tail[i] == t[i + 1] && tail[j] == t[j + 1];
      }
      forall j | 0 <= j < |tail|
        ensures x.pos < tail[j].pos
      {
        assert tail[j] == t[j + 1];
      }
      InsertDescRanked(x, tail);
      InsertDescMembers(x, tail);
      var rest := InsertDesc(x, tail);
      forall j | 0 <= j < |rest|
        ensures RankedBefore(t[0], rest[j])
      {
        assert rest[j] in rest;
        if rest[j] != x {
          var k :| 0 <= k < |tail| && tail[k] == rest[j];
          assert RankedBefore(t[0], t[k + 1]);
        }
      }
      ConsRanked(t[0], rest);
    }
  }

  /** Inserting an entry that precedes all of a ranked list in the document
      is a ranked permutation. */
  lemma InsertDescCorrect(x: Ranked, t: seq<Ranked>)
    requires StrictlyRanked(t)
    requires forall e :: e in t ==> x.pos < e.pos
    ensures multiset(InsertDesc(x, t)) == multiset(t) + multiset{x}
    ensures StrictlyRanked(InsertDesc(x, t))
  {
    InsertDescPerm(x, t);
    assert forall j :: 0 <= j < |t| ==> t[j] in t;
    InsertDescRanked(x, t);
  }

  /** Every sorted entry is an entry of the input. */
  lemma {:induction false} SortDescMembers(s: seq<Ranked>)
    ensures forall e :: e in SortDesc(s) ==> e in s
    decreases |s|
  {
    if s != [] {
      SortDescMembers(s[1..]);
      InsertDescMembers(s[0], SortDesc(s[1..]));
    }
  }

  /** Positions still increase after the first entry, and all exceed its own. */
  lemma TailPositions(s: seq<Ranked>)
    requires s != [] && IncreasingPositions(s)
    ensures IncreasingPositions(s[1..])
    ensures forall e :: e in s[1..] ==> s[0].pos < e.pos
  {
    var tail := s[1..];
    forall i, j | 0 <= i < j < |tail|
      ensures tail[i].pos < tail[j].pos
    {
      assert tail[i] == s[i + 1] && tail[j] == s[j + 1];
    }
    forall e | e in tail
      ensures s[0].pos < e.pos
    {
      var k :| 0 <= k < |tail| && tail[k] == e;
      assert tail[k] == s[k + 1];
    }
  }

  /** The sort is a permutation, and for entries listed in increasing position
      order its result is ordered by descending score, ties kept in their
      original order. */
  lemma {:induction false} SortDescCorrect(s: seq<Ranked>)
    requires IncreasingPositions(s)
    ensures multiset(SortDesc(s)) == multiset(s)
    ensures StrictlyRanked(SortDesc(s))
    decreases |s|
  {
    if s != [] {
      var tail := s[1..];
      TailPositions(s);
      SortDescCorrect(tail);
      SortDescMembers(tail);
      InsertDescCorrect(s[0], SortDesc(tail));
      assert s == [s[0]] + tail;
    }
  }

  /** Python's `s[:stop]` keeps this many of `len` items, for any integer `stop`. */
  function SliceEnd(stop: int, len: nat): (r: nat)
    ensures r <= len
    ensures stop >= 0 ==> r == if stop < len then stop else len
  {
    if stop >= 0 then (if stop < len then stop else len)
    else if len + stop >= 0 then len + stop
    else 0
  }

  /** `hash(str(tag)[:500])`, for an arbitrary `hash`. */
  function Fingerprint(hash: string -> int, s: string): int {
    hash(Prefix(s, 500))
  }

  /** The de-duplication loop over the window, from a state with the given
      fingerprints seen and `count` blocks kept. */
  function Dedup(w: seq<Ranked>, hash: string -> int, seen: set<int>, count: nat, limit: int): seq<string>
    decreases |w|
  {
    if w == [] then []
    else
      var s := w[0].node.serialized;
      var h := Fingerprint(hash, s);
      if h in seen then Dedup(w[1..], hash, seen, count, limit)
      else [s] + (if count + 1 >= limit then [] else Dedup(w[1..], hash, seen + {h}, count + 1, limit))
  }

  function Serializations(w: seq<Ranked>): seq<string> {
    if w == [] then [] else [w[0].node.serialized] + Serializations(w[1..])
  }

  /** `a` can be obtained from `b` by deleting items. */
  predicate IsSubsequence(a: seq<string>, b: seq<string>)
    decreases |b|
  {
    a == [] || (b != [] && ((a[0] == b[0] && IsSubsequence(a[1..], b[1..])) || IsSubsequence(a, b[1..])))
  }

  lemma {:induction false} SubsequenceMembers(a: seq<string>, b: seq<string>)
    requires IsSubsequence(a, b)
    ensures forall x :: x in a ==> x in b
    decreases |b|
  {
    if a != [] {
      if a[0] == b[0] && IsSubsequence(a[1..], b[1..]) {
        SubsequenceMembers(a[1..], b[1..]);
        assert a == [a[0]] + a[1..];
      } else {
        SubsequenceMembers(a, b[1..]);
      }
    }
  }

  lemma {:induction false} SerializationsMembers(w: seq<Ranked>, x: string)
    requires x in Serializations(w)
    ensures exists k :: 0 <= k < |w| && w[k].node.serialized == x
    decreases |w|
  {
    if w[0].node.serialized != x {
      SerializationsMembers(w[1..], x);
      var k :| 0 <= k < |w[1..]| && w[1..][k].node.serialized == x;
      assert w[k + 1] == w[1..][k];
    }
  }

  /** What the de-duplication loop promises: a bounded number of blocks, taken
      in window order, no fingerprint twice and none already seen. */
  lemma {:induction false} DedupFacts(w: seq<Ranked>, hash: string -> int, seen: set<int>, count: nat, limit: int)
    ensures |Dedup(w, hash, seen, count, limit)| <= if count < limit then limit - count else 1
    ensures forall s :: s in Dedup(w, hash, seen, count, limit) ==> Fingerprint(hash, s) !in seen
    ensures forall i, j :: 0 <= i < j < |Dedup(w, hash, seen, count, limit)| ==>
              Fingerprint(hash, Dedup(w, hash, seen, count, limit)[i])
              != Fingerprint(hash, Dedup(w, hash, seen, count, limit)[j])
    ensures IsSubsequence(Dedup(w, hash, seen, count, limit), Serializations(w))
    decreases |w|
  {
    if w != [] {
      var s := w[0].node.serialized;
      var h := Fingerprint(hash, s);
      var r := Dedup(w, hash, seen, count, limit);
      assert Serializations(w) == [s] + Serializations(w[1..]);
      if h in seen {
        DedupFacts(w[1..], hash, seen, count, limit);
      } else if count + 1 >= limit {
        assert r == [s];
      } else {
        var rest := Dedup(w[1..], hash, seen + {h}, count + 1, limit);
        DedupFacts(w[1..], hash, seen + {h}, count + 1, limit);
        assert r == [s] + rest;
        assert r[1..] == rest;
        forall i, j | 0 <= i < j < |r|
          ensures Fingerprint(hash, r[i]) != Fingerprint(hash, r[j])
        {
          if i == 0 {
            assert r[j] == rest[j - 1] && rest[j - 1] in rest;
          } else {
            assert r[i] == rest[i - 1] && r[j] == rest[j - 1];
          }
        }
      }
    }
  }

  /** No entry before position `k` of the window has the fingerprint of entry `k`. */
  predicate FreshAt(w: seq<Ranked>, hash: string -> int, k: nat)
    requires k < |w|
  {
    forall j :: 0 <= j < k ==> Fingerprint(hash, w[j].node.serialized) != Fingerprint(hash, w[k].node.serialized)
  }

  /** An entry whose fingerprint is new at its position is kept, unless the
      loop reaches `limit` kept blocks. */
  lemma {:induction false} DedupKeepsFresh(w: seq<Ranked>, hash: string -> int, seen: set<int>, count: nat, limit: int, k: nat)
    requires k < |w| && FreshAt(w, hash, k)
    requires Fingerprint(hash, w[k].node.serialized) !in seen
    requires count + |Dedup(w, hash, seen, count, limit)| < limit
    ensures w[k].node.serialized in Dedup(w, hash, seen, count, limit)
    decreases |w|
  {
    var s := w[0].node.serialized;
    var h := Fingerprint(hash, s);
    if k > 0 {
      assert FreshAt(w[1..], hash, k - 1) by {
        forall j | 0 <= j < k - 1
          ensures Fingerprint(hash, w[1..][j].node.serialized) != Fingerprint(hash, w[1..][k - 1].node.serialized)
        {
          assert w[1..][j] == w[j + 1] && w[1..][k - 1] == w[k];
        }
      }
      assert w[1..][k - 1] == w[k];
      if h in seen {
        DedupKeepsFresh(w[1..], hash, seen, count, limit, k - 1);
      } else {
        assert count + 1 < limit;
        assert Fingerprint(hash, w[k].node.serialized) != h;
        DedupKeepsFresh(w[1..], hash, seen + {h}, count + 1, limit, k - 1);
      }
    }
  }

  /** Fewer than `limit` blocks come back only when every entry with a new
      fingerprint was kept: the loop skips duplicates and nothing else. */
  lemma DedupComplete(w: seq<Ranked>, hash: string -> int, limit: int)
    ensures |Dedup(w, hash, {}, 0, limit)| < limit ==>
              forall k :: 0 <= k < |w| && FreshAt(w, hash, k) ==> w[k].node.serialized in Dedup(w, hash, {}, 0, limit)
  {
    forall k | 0 <= k < |w| && FreshAt(w, hash, k) && |Dedup(w, hash, {}, 0, limit)| < limit
      ensures w[k].node.serialized in Dedup(w, hash, {}, 0, limit)
    {
      DedupKeepsFresh(w, hash, {}, 0, limit, k);
    }
  }

  /** The serialisations of the window entries from position `i` on whose
      fingerprint is new at their position, in window order. */
  function FreshFrom(w: seq<Ranked>, hash: string -> int, i: nat): seq<string>
    decreases |w| - i
  {
    if i >= |w| then []
    else (if FreshAt(w, hash, i) then [w[i].node.serialized] else []) + FreshFrom(w, hash, i + 1)
  }

  /** Every window entry with a new fingerprint, in window order. */
  function FreshSerializations(w: seq<Ranked>, hash: string -> int): seq<string> {
    FreshFrom(w, hash, 0)
  }

  /** The first `n` items of `s` (all of them when `s` is shorter). */
  function Take(s: seq<string>, n: int): seq<string> {
    s[..if n < 0 then 0 else if n < |s| then n else |s|]
  }

  /** The fingerprints of the first `i` window entries. */
  function SeenBefore(w: seq<Ranked>, hash: string -> int, i: nat): set<int>
    requires i <= |w|
  {
    set j | 0 <= j < i :: Fingerprint(hash, w[j].node.serialized)
  }

  /** Without the limit, the walk from position `i`, having seen the
      fingerprints of the entries before it, keeps exactly the fresh entries. */
  lemma {:induction false} DedupUnlimited(w: seq<Ranked>, hash: string -> int, i: nat, count: nat, limit: int)
    requires i <= |w|
    ensures Dedup(w[i..], hash, SeenBefore(w, hash, i), count, limit)
            == Take(FreshFrom(w, hash, i), if count < limit then limit - count else 1)
    decreases |w| - i
  {
    if i < |w| {
      var s := w[i].node.serialized;
      var h := Fingerprint(hash, s);
      var seen := SeenBefore(w, hash, i);
      assert w[i..][0] == w[i] && w[i..][1..] == w[i + 1..];
      assert h in seen <==> !FreshAt(w, hash, i) by {
        if h in seen {
          var j :| 0 <= j < i && Fingerprint(hash, w[j].node.serialized) == h;
        }
      }
      assert SeenBefore(w, hash, i + 1) == seen + {h};
      var rest := FreshFrom(w, hash, i + 1);
      if h in seen {
        assert Dedup(w[i..], hash, seen, count, limit) == Dedup(w[i + 1..], hash, seen, count, limit);
        assert seen + {h} == seen;
        DedupUnlimited(w, hash, i + 1, count, limit);
        assert FreshFrom(w, hash, i) == rest;
      } else if count + 1 >= limit {
        assert FreshFrom(w, hash, i) == [s] + rest;
      } else {
        DedupUnlimited(w, hash, i + 1, count + 1, limit);
        assert FreshFrom(w, hash, i) == [s] + rest;
        assert Take([s] + rest, limit - count) == [s] + Take(rest, limit - count - 1);
      }
    }
  }

  /** The walk keeps exactly the first `limit` entries with a new fingerprint
      (the first one for a limit below one): it skips duplicates and nothing
      else, and stops once `limit` blocks are kept. */
  lemma DedupFirstFresh(w: seq<Ranked>, hash: string -> int, limit: int)
    ensures Dedup(w, hash, {}, 0, limit) == Take(FreshSerializations(w, hash), if limit < 1 then 1 else limit)
  {
    assert w[0..] == w;
    assert SeenBefore(w, hash, 0) == {};
    DedupUnlimited(w, hash, 0, 0, limit);
  }

  /** The candidates ranked by the stable descending sort. */
  function RankedCandidates(cands: seq<Node>): seq<Ranked> {
    SortDesc(ScoredFrom(cands))
  }

  /** `scored[: limit * 2]`. */
  function Window(cands: seq<Node>, limit: int): seq<Ranked> {
    var ranked := RankedCandidates(cands);
    ranked[..SliceEnd(2 * limit, |ranked|)]
  }

  /** The blocks `extract_candidate_blocks` returns, as a function of the candidates. */
  function CandidateBlocks(cands: seq<Node>, limit: int, hash: string -> int): seq<string> {
    Dedup(Window(cands, limit), hash, {}, 0, limit)
  }

  /** The ranking is a stable descending sort of exactly the kept candidates. */
  lemma RankedCandidatesCorrect(cands: seq<Node>)
    ensures StrictlyRanked(RankedCandidates(cands))
    ensures multiset(RankedCandidates(cands)) == multiset(ScoredFrom(cands))
    ensures forall e :: e in RankedCandidates(cands) ==> ScoredEntry(cands, e)
  {
    ScoredFromFacts(cands);
    SortDescCorrect(ScoredFrom(cands));
    forall e | e in RankedCandidates(cands)
      ensures ScoredEntry(cands, e)
    {
      assert e in multiset(ScoredFrom(cands));
    }
  }

  /** Every returned block is the serialisation of a candidate that passed the
      navigation, hidden-style and size filters. */
  lemma CandidateBlocksKept(cands: seq<Node>, limit: int, hash: string -> int)
    ensures forall b :: b in CandidateBlocks(cands, limit, hash) ==>
              exists p :: 0 <= p < |cands| && Keep(cands[p]) && cands[p].serialized == b
  {
    var w := Window(cands, limit);
    DedupFacts(w, hash, {}, 0, limit);
    SubsequenceMembers(CandidateBlocks(cands, limit, hash), Serializations(w));
    RankedCandidatesCorrect(cands);
    forall b | b in CandidateBlocks(cands, limit, hash)
      ensures exists p :: 0 <= p < |cands| && Keep(cands[p]) && cands[p].serialized == b
    {
      SerializationsMembers(w, b);
      var k :| 0 <= k < |w| && w[k].node.serialized == b;
      var e := w[k];
      assert e in RankedCandidates(cands);
      assert ScoredEntry(cands, e);
    }
  }

  /** What `extract_candidate_blocks` promises of its result: at most `limit`
      blocks (one for a negative limit), pairwise different fingerprints, in
      ranking order, each from a candidate that passed the filters; and, short
      of `limit`, every window entry with a new fingerprint; in all, exactly the
      first `limit` window entries with a new fingerprint. */
  lemma CandidateBlocksFacts(cands: seq<Node>, limit: int, hash: string -> int)
    ensures limit >= 0 ==> |CandidateBlocks(cands, limit, hash)| <= limit
    ensures limit < 0 ==> |CandidateBlocks(cands, limit, hash)| <= 1
    ensures forall i, j :: 0 <= i < j < |CandidateBlocks(cands, limit, hash)| ==>
              Fingerprint(hash, CandidateBlocks(cands, limit, hash)[i])
              != Fingerprint(hash, CandidateBlocks(cands, limit, hash)[j])
    ensures IsSubsequence(CandidateBlocks(cands, limit, hash), Serializations(Window(cands, limit)))
    ensures forall b :: b in CandidateBlocks(cands, limit, hash) ==>
              exists p :: 0 <= p < |cands| && Keep(cands[p]) && cands[p].serialized == b
    ensures |CandidateBlocks(cands, limit, hash)| < limit ==>
              forall k :: 0 <= k < |Window(cands, limit)| && FreshAt(Window(cands, limit), hash, k) ==>
                Window(cands, limit)[k].node.serialized in CandidateBlocks(cands, limit, hash)
    ensures CandidateBlocks(cands, limit, hash)
            == Take(FreshSerializations(Window(cands, limit), hash), if limit < 1 then 1 else limit)
  {
    DedupFirstFresh(Window(cands, limit), hash, limit);
    DedupFacts(Window(cands, limit), hash, {}, 0, limit);
    DedupComplete(Window(cands, limit), hash, limit);
    CandidateBlocksKept(cands, limit, hash);
  }

  /** One more candidate: the scored list grows by at most that candidate. */
  lemma ScoredFromStep(cands: seq<Node>, i: nat)
    requires i < |cands|
    ensures ScoredFrom(cands[..i + 1])
            == ScoredFrom(cands[..i]) + (if Keep(cands[i]) then [Ranked(BlockScore(cands[i]), i, cands[i])] else [])
  {
    assert cands[..i + 1][..i] == cands[..i];
  }

  /** The first loop of `extract_candidate_blocks`: filter and score the
      candidates in document order. */
  method ScoreCandidates(candidates: seq<Node>) returns (scored: seq<Ranked>)
    ensures scored == ScoredFrom(candidates)
  {
    scored := [];
    var i := 0;
    while i < |candidates|
      invariant 0 <= i <= |candidates|
      invariant scored == ScoredFrom(candidates[..i])
    {
      var tag := candidates[i];
      ScoredFromStep(candidates, i);
      if !IsNavigationBlock(tag) && !Contains(ToLower(RemoveSpaces(tag.style)), "display:none") {
        var text := tag.text;
        if !(|text| < 30 && tag.imageCount == 0) {
          var score := ScoreContentBlock(tag);
          if |tag.serialized| > 100_000 {
            score := score * 0.5;
          }
          assert Keep(tag) && score == BlockScore(tag);
          scored := scored + [Ranked(score, i, tag)];
        }
      }
      i := i + 1;
    }
    assert candidates[..i] == candidates;
  }

  /** `Dedup` from position `k` of the window, one step unfolded. */
  lemma DedupAt(w: seq<Ranked>, k: nat, hash: string -> int, seen: set<int>, count: nat, limit: int)
    requires k < |w|
    ensures var s := w[k].node.serialized;
            var h := Fingerprint(hash, s);
            Dedup(w[k..], hash, seen, count, limit)
            == if h in seen then Dedup(w[k + 1..], hash, seen, count, limit)
               else [s] + (if count + 1 >= limit then [] else Dedup(w[k + 1..], hash, seen + {h}, count + 1, limit))
  {
    assert w[k..][0] == w[k] && w[k..][1..] == w[k + 1..];
  }

  /** A block whose fingerprint was seen is skipped. */
  lemma DedupSkip(w: seq<Ranked>, k: nat, hash: string -> int, seen: set<int>, acc: seq<string>, limit: int,
                  total: seq<string>)
    requires k < |w| && Fingerprint(hash, w[k].node.serialized) in seen
    requires acc + Dedup(w[k..], hash, seen, |acc|, limit) == total
    ensures acc + Dedup(w[k + 1..], hash, seen, |acc|, limit) == total
  {
    DedupAt(w, k, hash, seen, |acc|, limit);
  }

  /** A block with a new fingerprint is kept, and the walk stops at `limit`. */
  lemma DedupTake(w: seq<Ranked>, k: nat, hash: string -> int, seen: set<int>, acc: seq<string>, limit: int,
                  total: seq<string>)
    requires k < |w| && Fingerprint(hash, w[k].node.serialized) !in seen
    requires acc + Dedup(w[k..], hash, seen, |acc|, limit) == total
    ensures |acc| + 1 >= limit ==> acc + [w[k].node.serialized] == total
    ensures |acc| + 1 < limit ==>
              (acc + [w[k].node.serialized])
              + Dedup(w[k + 1..], hash, seen + {Fingerprint(hash, w[k].node.serialized)}, |acc| + 1, limit)
              == total
  {
    var s := w[k].node.serialized;
    var rest := Dedup(w[k + 1..], hash, seen + {Fingerprint(hash, s)}, |acc| + 1, limit);
    assert Dedup(w[k..], hash, seen, |acc|, limit) == [s] + (if |acc| + 1 >= limit then [] else rest) by {
      DedupAt(w, k, hash, seen, |acc|, limit);
    }
    if |acc| + 1 < limit {
      assert acc + ([s] + rest) == (acc + [s]) + rest;
    } else {
      assert [s] + [] == [s];
    }
  }

  /** The second loop of `extract_candidate_blocks`: walk the window, skip a
      block whose fingerprint was seen, stop once `limit` blocks are kept. */
  method DedupWindow(window: seq<Ranked>, hash: string -> int, limit: int) returns (finalBlocks: seq<string>)
    ensures finalBlocks == Dedup(window, hash, {}, 0, limit)
  {
    ghost var total := Dedup(window, hash, {}, 0, limit);
    finalBlocks := [];
    var seen: set<int> := {};
    var k := 0;
    assert window[0..] == window;
    while k < |window|
      invariant 0 <= k <= |window|
      invariant finalBlocks + Dedup(window[k..], hash, seen, |finalBlocks|, limit) == total
    {
      var s := window[k].node.serialized;
      var contentHash := hash(Prefix(s, 500));
      if contentHash in seen {
        DedupSkip(window, k, hash, seen, finalBlocks, limit, total);
        k := k + 1;
        continue;
      }
      DedupTake(window, k, hash, seen, finalBlocks, limit, total);
      seen := seen + {contentHash};
      finalBlocks := finalBlocks + [s];
      if |finalBlocks| >= limit {
        return;
      }
      k := k + 1;
    }
    assert window[k..] == [];
  }

  /** `HTMLFetcher.extract_candidate_blocks`, from the candidates `find_all`
      returns in document order: score, sort, cut the window, de-duplicate. */
  method ExtractCandidateBlocks(candidates: seq<Node>, limit: int, hash: string -> int)
    returns (blocks: seq<string>)
    ensures blocks == CandidateBlocks(candidates, limit, hash)
    ensures limit >= 0 ==> |blocks| <= limit
    ensures limit < 0 ==> |blocks| <= 1
    ensures forall i, j :: 0 <= i < j < |blocks| ==>
              Fingerprint(hash, blocks[i]) != Fingerprint(hash, blocks[j])
    ensures IsSubsequence(blocks, Serializations(Window(candidates, limit)))
    ensures forall b :: b in blocks ==>
              exists p :: 0 <= p < |candidates| && Keep(candidates[p]) && candidates[p].serialized == b
    ensures |blocks| < limit ==>
              forall k :: 0 <= k < |Window(candidates, limit)| && FreshAt(Window(candidates, limit), hash, k) ==>
                Window(candidates, limit)[k].node.serialized in blocks
    ensures blocks == Take(FreshSerializations(Window(candidates, limit), hash), if limit < 1 then 1 else limit)
  {
    var scored := ScoreCandidates(candidates);
    scored := SortDesc(scored);
    var window := scored[..SliceEnd(2 * limit, |scored|)];
    blocks := DedupWindow(window, hash, limit);
    CandidateBlocksFacts(candidates, limit, hash);
  }
}
