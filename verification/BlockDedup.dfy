/** Removing overlapping block reports: the most confident of any that overlap is kept. */
module BlockDedup {
  import opened Common
  import opened Paging
  import opened Strings

  /** matchText is the text a pattern matched, the empty string when the context has none. */
  datatype Block = Block(matchText: string, confidence: real, message: string)

  function Normalized(b: Block): string {
    Strip(Lower(b.matchText))
  }

  predicate Overlap(x: string, y: string) {
    Contains(y, x) || Contains(x, y)
  }

  predicate Comparable(a: Block, b: Block) {
    Overlap(Normalized(a), Normalized(b))
  }

  // ----- the sort by confidence

  function InsertBlock(b: Block, s: seq<Block>): seq<Block> {
    if s == [] || b.confidence >= s[0].confidence then [b] + s else [s[0]] + InsertBlock(b, s[1..])
  }

  /** A stable sort, highest confidence first. */
  function Sorted(blocks: seq<Block>): seq<Block> {
    if blocks == [] then [] else InsertBlock(blocks[0], Sorted(blocks[1..]))
  }

  ghost predicate Descending(s: seq<Block>) {
    forall i, j :: 0 <= i < j < |s| ==> s[i].confidence >= s[j].confidence
  }

  function OfConfidence(c: real): Block -> bool {
    (b: Block) => b.confidence == c
  }

  lemma {:induction false} InsertPermutes(b: Block, s: seq<Block>)
    ensures multiset(InsertBlock(b, s)) == multiset{b} + multiset(s)
    decreases |s|
  {
    if !(s == [] || b.confidence >= s[0].confidence) {
      InsertPermutes(b, s[1..]);
      assert s == [s[0]] + s[1..];
    }
  }

  lemma {:induction false} InsertDescends(b: Block, s: seq<Block>)
    requires Descending(s)
    ensures Descending(InsertBlock(b, s))
    decreases |s|
  {
    if !(s == [] || b.confidence >= s[0].confidence) {
      InsertDescends(b, s[1..]);
      InsertPermutes(b, s[1..]);
      var r := InsertBlock(b, s[1..]);
      forall j | 0 <= j < |r|
        ensures s[0].confidence >= r[j].confidence
      {
        assert r[j] in multiset(r);
        assert r[j] == b || r[j] in s[1..];
      }
    }
  }

  lemma {:induction false} InsertStable(b: Block, s: seq<Block>, c: real)
    ensures Filter(InsertBlock(b, s), OfConfidence(c)) == Filter([b] + s, OfConfidence(c))
    decreases |s|
  {
    assert ([b] + s)[1..] == s;
    if !(s == [] || b.confidence >= s[0].confidence) {
      InsertStable(b, s[1..], c);
      assert ([b] + s[1..])[1..] == s[1..];
      assert ([s[0]] + InsertBlock(b, s[1..]))[1..] == InsertBlock(b, s[1..]);
    }
  }

  lemma {:induction false} SortStable(blocks: seq<Block>, c: real)
    ensures Filter(Sorted(blocks), OfConfidence(c)) == Filter(blocks, OfConfidence(c))
    decreases |blocks|
  {
    if blocks != [] {
      var s := Sorted(blocks[1..]);
      SortStable(blocks[1..], c);
      InsertStable(blocks[0], s, c);
      assert ([blocks[0]] + s)[1..] == s;
    }
  }

  lemma {:induction false} SortPermutes(blocks: seq<Block>)
    ensures Descending(Sorted(blocks)) && multiset(Sorted(blocks)) == multiset(blocks)
    decreases |blocks|
  {
    if blocks != [] {
      SortPermutes(blocks[1..]);
      InsertPermutes(blocks[0], Sorted(blocks[1..]));
      InsertDescends(blocks[0], Sorted(blocks[1..]));
      assert blocks == [blocks[0]] + blocks[1..];
    }
  }

  /** Sorting permutes the blocks, puts higher confidences first, and keeps the order of blocks of the same confidence. */
  lemma SortLaws(blocks: seq<Block>)
    ensures Descending(Sorted(blocks)) && multiset(Sorted(blocks)) == multiset(blocks)
    ensures forall c :: Filter(Sorted(blocks), OfConfidence(c)) == Filter(blocks, OfConfidence(c))
  {
    SortPermutes(blocks);
    forall c
      ensures Filter(Sorted(blocks), OfConfidence(c)) == Filter(blocks, OfConfidence(c))
    {
      SortStable(blocks, c);
    }
  }

  lemma {:induction false} SortedStays(s: seq<Block>)
    requires Descending(s)
    ensures Sorted(s) == s
    decreases |s|
  {
    if s != [] {
      SortedStays(s[1..]);
    }
  }

  // ----- the greedy pass

  predicate Clashes(kept: seq<Block>, b: Block) {
    exists i :: 0 <= i < |kept| && Comparable(kept[i], b)
  }

  /** Keep a block unless it overlaps one kept before. */
  function Kept(s: seq<Block>): seq<Block> {
    if s == [] then []
    else
      var n := |s| - 1;
      var kept := Kept(s[..n]);
      if Clashes(kept, s[n]) then kept else kept + [s[n]]
  }

  ghost predicate Antichain(s: seq<Block>) {
    forall i, j :: 0 <= i < j < |s| ==> !Comparable(s[i], s[j])
  }

  /** Some kept block overlaps b and is at least as confident. */
  ghost predicate Represented(kept: seq<Block>, b: Block) {
    exists i :: 0 <= i < |kept| && Comparable(kept[i], b) && kept[i].confidence >= b.confidence
  }

  lemma OverlapSelf(x: string)
    ensures Overlap(x, x)
  {
    assert OccursAt(x, x, 0);
  }

  lemma {:induction false} KeptAntichain(s: seq<Block>)
    requires Descending(s)
    ensures Antichain(Kept(s)) && Descending(Kept(s)) && forall b :: b in Kept(s) ==> b in s
    decreases |s|
  {
    if s != [] {
      var n := |s| - 1;
      var kept := Kept(s[..n]);
      KeptAntichain(s[..n]);
      forall i | 0 <= i < |kept|
        ensures kept[i].confidence >= s[n].confidence
      {
        assert kept[i] in kept && kept[i] in s[..n];
      }
    }
  }

  lemma KeptGrows(s: seq<Block>, b: Block)
    requires s != [] && Represented(Kept(s[..|s| - 1]), b)
    ensures Represented(Kept(s), b)
  {
    var kept, r := Kept(s[..|s| - 1]), Kept(s);
    var i :| 0 <= i < |kept| && Comparable(kept[i], b) && kept[i].confidence >= b.confidence;
    assert r[i] == kept[i];
  }

  lemma LastRepresented(s: seq<Block>)
    requires s != [] && Descending(s)
    ensures Represented(Kept(s), s[|s| - 1])
  {
    var n := |s| - 1;
    var kept, r := Kept(s[..n]), Kept(s);
    if Clashes(kept, s[n]) {
      KeptAntichain(s[..n]);
      var i :| 0 <= i < |kept| && Comparable(kept[i], s[n]);
      assert kept[i] in kept && kept[i] in s[..n] && r[i] == kept[i];
    } else {
      OverlapSelf(Normalized(s[n]));
      assert r[|kept|] == s[n];
    }
  }

  lemma {:induction false} AllRepresented(s: seq<Block>, i: nat)
    requires Descending(s) && i < |s|
    ensures Represented(Kept(s), s[i])
    decreases |s|
  {
    var n := |s| - 1;
    if i < n {
      AllRepresented(s[..n], i);
      KeptGrows(s, s[i]);
    } else {
      LastRepresented(s);
    }
  }

  lemma {:induction false} AntichainStays(s: seq<Block>)
    requires Antichain(s)
    ensures Kept(s) == s
    decreases |s|
  {
    if s != [] {
      var n := |s| - 1;
      AntichainStays(s[..n]);
      forall i | 0 <= i < n
        ensures !Comparable(s[..n][i], s[n])
      {
        assert s[..n][i] == s[i];
      }
    }
  }

  /** What _deduplicate_blocks returns. */
  function Deduplicated(blocks: seq<Block>): seq<Block> {
    Kept(Sorted(blocks))
  }

  /**
   The output is an antichain, most confident first, made of input blocks; every input block overlaps a kept block of at
   least its confidence, so nothing could be added; and deduplicating again changes nothing.
   */
  lemma DedupLaws(blocks: seq<Block>)
    ensures var r := Deduplicated(blocks);
      && Antichain(r) && Descending(r) && (forall b :: b in r ==> b in blocks)
      && (forall b :: b in blocks ==> Represented(r, b))
      && Deduplicated(r) == r
  {
    SortLaws(blocks);
    var s := Sorted(blocks);
    KeptAntichain(s);
    var r := Kept(s);
    assert forall b :: b in s <==> b in multiset(s);
    assert forall b :: b in blocks <==> b in multiset(blocks);
    forall b | b in blocks
      ensures Represented(r, b)
    {
      assert b in s;
      var i :| 0 <= i < |s| && s[i] == b;
      AllRepresented(s, i);
    }
    SortedStays(r);
    AntichainStays(r);
  }

  /** The inner loop of the source: it goes over a set, in any order. */
  method IsDuplicate(seen: set<string>, normalized: string) returns (duplicate: bool)
    ensures duplicate <==> exists x :: x in seen && Overlap(x, normalized)
  {
    var rest := seen;
    while rest != {}
      invariant rest <= seen && forall x :: x in seen && x !in rest ==> !Overlap(x, normalized)
      decreases |rest|
    {
      var x :| x in rest;
      if Contains(x, normalized) || Contains(normalized, x) {
        return true;
      }
      rest := rest - {x};
    }
    return false;
  }

  method DeduplicateBlocks(blocks: seq<Block>) returns (unique: seq<Block>)
    ensures unique == Deduplicated(blocks)
  {
    if blocks == [] {
      return blocks;
    }
    var sorted := Sorted(blocks);
    var seen: set<string> := {};
    unique := [];
    var i := 0;
    while i < |sorted|
      invariant 0 <= i <= |sorted|
      invariant unique == Kept(sorted[..i])
      invariant seen == set b | b in unique :: Normalized(b)
    {
      var block := sorted[i];
      var duplicate := IsDuplicate(seen, Normalized(block));
      ClashesIff(unique, seen, block);
      assert sorted[..i + 1][..i] == sorted[..i];
      if !duplicate {
        SeenExtended(unique, seen, block);
        seen := seen + {Normalized(block)};
        unique := unique + [block];
      }
      i := i + 1;
    }
    assert sorted[..i] == sorted;
  }

  lemma SeenExtended(kept: seq<Block>, seen: set<string>, b: Block)
    requires seen == set k | k in kept :: Normalized(k)
    ensures seen + {Normalized(b)} == set k | k in kept + [b] :: Normalized(k)
  {
    assert forall k :: k in kept + [b] <==> k in kept || k == b;
  }

  lemma ClashesIff(kept: seq<Block>, seen: set<string>, b: Block)
    requires seen == set k | k in kept :: Normalized(k)
    ensures Clashes(kept, b) <==> exists x :: x in seen && Overlap(x, Normalized(b))
  {
    if Clashes(kept, b) {
      var i :| 0 <= i < |kept| && Comparable(kept[i], b);
      assert kept[i] in kept;
      assert Normalized(kept[i]) in seen;
    }
  }

  // ----- in terms of the texts

  /** No kept text contains another, up to case and outer blanks, and each dropped one contains or is contained in a kept one. */
  lemma DedupTexts(blocks: seq<Block>)
    ensures var r := Deduplicated(blocks);
      && (forall i, j :: 0 <= i < |r| && 0 <= j < |r| && i != j ==>
            !Contains(Strip(Lower(r[i].matchText)), Strip(Lower(r[j].matchText))))
      && forall b :: b in blocks ==>
           || (exists k :: k in r && k.confidence >= b.confidence && Contains(Strip(Lower(k.matchText)), Strip(Lower(b.matchText))))
           || (exists k :: k in r && k.confidence >= b.confidence && Contains(Strip(Lower(b.matchText)), Strip(Lower(k.matchText))))
  {
    DedupLaws(blocks);
    var r := Deduplicated(blocks);
    forall i, j | 0 <= i < |r| && 0 <= j < |r| && i != j
      ensures !Contains(Strip(Lower(r[i].matchText)), Strip(Lower(r[j].matchText)))
    {
      assert !Comparable(r[if i < j then i else j], r[if i < j then j else i]);
    }
    forall b | b in blocks
      ensures (exists k :: k in r && k.confidence >= b.confidence && Contains(Strip(Lower(k.matchText)), Strip(Lower(b.matchText))))
        || exists k :: k in r && k.confidence >= b.confidence && Contains(Strip(Lower(b.matchText)), Strip(Lower(k.matchText)))
    {
      assert Represented(r, b);
      var i :| 0 <= i < |r| && Comparable(r[i], b) && r[i].confidence >= b.confidence;
      assert r[i] in r;
    }
  }

  lemma BlankIsLower(s: string)
    requires Blank(s)
    ensures Lower(s) == s
  {
    assert forall i :: 0 <= i < |s| ==> s[i] in s;
  }

  /** Two kept blocks never have texts that differ in case or outer blanks only. */
  lemma CaseAndBlanksIgnored(blocks: seq<Block>, i: nat, j: nat, before: string, text: string, after: string)
    requires i < |Deduplicated(blocks)| && j < |Deduplicated(blocks)| && i != j && Blank(before) && Blank(after)
    requires Deduplicated(blocks)[i].matchText == before + text + after
    ensures Lower(text) != Lower(Deduplicated(blocks)[j].matchText)
  {
    BlankIsLower(before);
    BlankIsLower(after);
    assert Lower(before + text + after) == before + Lower(text) + after;
    StripIgnores(before, Lower(text), after);
    OverlapSelf(Strip(Lower(text)));
    DedupTexts(blocks);
  }

  lemma {:induction false} FirstStays(s: seq<Block>)
    requires s != []
    ensures Kept(s) != [] && Kept(s)[0] == s[0]
    decreases |s|
  {
    if |s| > 1 {
      FirstStays(s[..|s| - 1]);
    }
  }

  lemma BlankStripped(s: string)
    requires Blank(s)
    ensures Strip(Lower(s)) == ""
  {
    BlankIsLower(s);
    StripIgnores(s, "", "");
    assert s + "" + "" == s;
  }

  lemma ContainsEmpty(s: string)
    ensures Contains(s, "")
  {
    assert OccursAt(s, "", 0);
  }

  /** A block without text overlaps every block: it is kept only if it comes first, and then nothing else is. */
  lemma BlankTextTakesAll(blocks: seq<Block>, i: nat)
    requires i < |Deduplicated(blocks)| && Blank(Deduplicated(blocks)[i].matchText)
    ensures Deduplicated(blocks) == [Sorted(blocks)[0]]
  {
    var r := Deduplicated(blocks);
    BlankStripped(r[i].matchText);
    if |r| > 1 {
      var j := if i == 0 then 1 else 0;
      ContainsEmpty(Strip(Lower(r[j].matchText)));
      DedupTexts(blocks);
      assert false;
    }
    FirstStays(Sorted(blocks));
  }
}
