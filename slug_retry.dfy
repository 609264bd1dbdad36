/** The slug-collision retry shared by the category and product `create`
    flows: the generated slug is tried first; while the candidate is taken,
    a fresh token is drawn and the next candidate is the generated slug, a
    hyphen and that token, rebuilt from the name every time. */
module SlugRetry {

  import opened Slugs

  /** The candidate tried after `k` retries, given the tokens drawn so far. */
  function Candidate(base: string, tokens: seq<string>, k: nat): string
    requires k <= |tokens|
  {
    if k == 0 then base else base + "-" + tokens[k - 1]
  }

  predicate AllTokens(tokens: seq<string>) {
    forall i :: 0 <= i < |tokens| ==> IsToken(tokens[i])
  }

  /** Some candidate the tokens allow is free, so the retry loop stops before
      it runs out of tokens. */
  ghost predicate SomeCandidateFree(used: set<string>, base: string, tokens: seq<string>) {
    exists k :: 0 <= k <= |tokens| && Candidate(base, tokens, k) !in used
  }

  /** `slug` is the first free candidate: the one the retry loop stops at. */
  ghost predicate FirstFree(used: set<string>, base: string, tokens: seq<string>, slug: string) {
    exists k :: 0 <= k <= |tokens| && slug == Candidate(base, tokens, k)
      && slug !in used
      && forall j :: 0 <= j < k ==> Candidate(base, tokens, j) in used
  }

  /** While the current candidate is taken, a token is left to draw and every
      candidate so far is taken: the retry loop makes progress. */
  lemma RetryStep(used: set<string>, base: string, tokens: seq<string>, drawn: nat)
    requires drawn <= |tokens| && SomeCandidateFree(used, base, tokens)
    requires forall j :: 0 <= j < drawn ==> Candidate(base, tokens, j) in used
    requires Candidate(base, tokens, drawn) in used
    ensures drawn < |tokens|
    ensures forall j :: 0 <= j <= drawn ==> Candidate(base, tokens, j) in used
  {
    var free :| 0 <= free <= |tokens| && Candidate(base, tokens, free) !in used;
    assert drawn < free;
  }

  /** When the loop stops, its candidate is the first free one. */
  lemma RetryExit(used: set<string>, base: string, tokens: seq<string>, drawn: nat)
    requires drawn <= |tokens|
    requires forall j :: 0 <= j < drawn ==> Candidate(base, tokens, j) in used
    requires Candidate(base, tokens, drawn) !in used
    ensures FirstFree(used, base, tokens, Candidate(base, tokens, drawn))
  {
  }

  /** Suffixes never accumulate: every candidate is the generated slug, or the
      generated slug followed by a hyphen and one five-character token. */
  lemma CandidateShape(base: string, tokens: seq<string>, k: nat)
    requires AllTokens(tokens) && 0 < k <= |tokens|
    ensures |Candidate(base, tokens, k)| == |base| + 6
    ensures Candidate(base, tokens, k)[..|base| + 1] == base + "-"
    ensures IsToken(Candidate(base, tokens, k)[|base| + 1..])
  {
    var c := Candidate(base, tokens, k);
    assert c[..|base| + 1] == base + "-";
    assert c[|base| + 1..] == tokens[k - 1];
  }

  /** The chosen slug is free; it is the generated slug when that is free, and
      otherwise the generated slug plus a hyphen and a token. */
  lemma FirstFreeCases(used: set<string>, base: string, tokens: seq<string>, slug: string)
    requires AllTokens(tokens) && FirstFree(used, base, tokens, slug)
    ensures slug !in used
    ensures base !in used ==> slug == base
    ensures base in used ==>
      |slug| == |base| + 6 && slug[..|base| + 1] == base + "-" && IsToken(slug[|base| + 1..])
  {
    var k :| 0 <= k <= |tokens| && slug == Candidate(base, tokens, k)
      && slug !in used
      && forall j :: 0 <= j < k ==> Candidate(base, tokens, j) in used;
    if k > 0 {
      assert Candidate(base, tokens, 0) in used;
      CandidateShape(base, tokens, k);
    }
  }

  /** A second "Shoes" next to an existing "shoes" gets `shoes-` and five
      alphanumeric characters. */
  lemma SecondShoesGetsSuffix(name: string, used: set<string>, tokens: seq<string>, slug: string)
    requires name == "Shoes" && "shoes" in used
    requires AllTokens(tokens) && FirstFree(used, GenerateSlug(name), tokens, slug)
    ensures slug != "shoes" && |slug| == 11 && slug[..6] == "shoes-" && IsToken(slug[6..])
  {
    ShoesSlug(name);
    FirstFreeCases(used, GenerateSlug(name), tokens, slug);
    ShoesSuffix(GenerateSlug(name), slug);
  }

  lemma ShoesSuffix(base: string, slug: string)
    requires base == "shoes"
    requires |slug| == |base| + 6 && slug[..|base| + 1] == base + "-" && IsToken(slug[|base| + 1..])
    ensures slug != "shoes" && |slug| == 11 && slug[..6] == "shoes-" && IsToken(slug[6..])
  {
    assert base + "-" == "shoes-";
  }

  lemma ShoesSlug(name: string)
    requires name == "Shoes"
    ensures GenerateSlug(name) == "shoes"
  {
    ShoesIsWord(name);
    SlugOfWord(name);
    LowerShoes(name);
  }

  lemma ShoesIsWord(name: string)
    requires name == "Shoes"
    ensures forall i :: 0 <= i < |name| ==> IsWordChar(name[i])
  {}

  lemma LowerShoes(name: string)
    requires name == "Shoes"
    ensures Lower(name) == "shoes"
  {
    var lower := Lower(name);
    assert lower[0] == 's' && lower[1] == 'h' && lower[2] == 'o' && lower[3] == 'e' && lower[4] == 's';
  }
}
