/**
 * The rewrite chain that copyFile in scripts/create-platform.js applies to the
 * whole content of every text file: eleven global literal replacements, in a
 * fixed order, each working on the previous one's output.
 */
module Rewrite {
  import opened TextReplace
  import opened Arguments

  /** One line of the substitution table: a literal pattern and its replacement template. */
  datatype Rule = Rule(pat: string, tmpl: string)

  /** The eleven patterns, in the order the chain applies them. */
  const PATTERNS: seq<string> := [
    "Manch", "manch", "MANCH",
    "3000", "3002",
    "manch.db", "manch_token", "manch_user",
    "indigo-", "purple-",
    "@paypalcorp/manch"
  ]

  /** The substitution table for a given command line. */
  function Rules(p: Params): (rs: seq<Rule>)
    ensures |rs| == |PATTERNS|
    ensures forall k :: 0 <= k < |rs| ==> rs[k].pat == PATTERNS[k]
  {
    [ Rule("Manch", p.platformName),
      Rule("manch", p.Lower()),
      Rule("MANCH", p.Upper()),
      Rule("3000", p.backendPort),
      Rule("3002", p.frontendPort),
      Rule("manch.db", p.Lower() + ".db"),
      Rule("manch_token", p.Lower() + "_token"),
      Rule("manch_user", p.Lower() + "_user"),
      Rule("indigo-", p.primaryColor + "-"),
      Rule("purple-", p.secondaryColor + "-"),
      Rule("@paypalcorp/manch", "@paypalcorp/" + p.Lower()) ]
  }

  predicate NonEmptyPatterns(rs: seq<Rule>)
  {
    forall k :: 0 <= k < |rs| ==> |rs[k].pat| > 0
  }

  /** No rule's pattern occurs in `s`. */
  ghost predicate NoneOccurs(s: string, rs: seq<Rule>)
  {
    forall k :: 0 <= k < |rs| ==> !Contains(s, rs[k].pat)
  }

  /**
   * Apply the rules in order: the last rule works on what the others produced.
   * A text in which no rule's pattern occurs goes through every rule unchanged.
   */
  function ApplyRules(s: string, rs: seq<Rule>): (r: string)
    requires NonEmptyPatterns(rs)
    ensures NoneOccurs(s, rs) ==> r == s
    decreases |rs|
  {
    if rs == [] then s
    else
      var last := rs[|rs| - 1];
      var before := ApplyRules(s, rs[..|rs| - 1]);
      ReplaceAllWithoutMatch(before, last.pat, last.tmpl);
      ReplaceAll(before, last.pat, last.tmpl)
  }

  /** The text after the first `k` steps of the chain; after all of them, what copyFile writes. */
  function Stage(s: string, p: Params, k: nat): (r: string)
    requires k <= |PATTERNS|
    ensures k == |PATTERNS| ==> r == RewriteText(s, p)
  {
    assert k == |PATTERNS| ==> Rules(p)[..k] == Rules(p);
    ApplyRules(s, Rules(p)[..k])
  }

  /** The whole chain: what copyFile writes for a text file with content `s`. */
  function RewriteText(s: string, p: Params): (r: string)
    ensures (forall k :: 0 <= k < |PATTERNS| ==> !Contains(s, PATTERNS[k])) ==> r == s
  {
    ApplyRules(s, Rules(p))
  }

  lemma StageStep(s: string, p: Params, k: nat)
    requires k < |PATTERNS|
    ensures Stage(s, p, k + 1) == ReplaceAll(Stage(s, p, k), PATTERNS[k], Rules(p)[k].tmpl)
  {
    assert Rules(p)[..k + 1][..k] == Rules(p)[..k];
  }

  /** Each of these patterns holds a lower-case `manch`. */
  lemma ManchInLaterPatterns()
    ensures Contains("manch.db", "manch")
    ensures Contains("manch_token", "manch")
    ensures Contains("manch_user", "manch")
    ensures Contains("@paypalcorp/manch", "manch")
  {
    assert MatchAt("manch.db", "manch", 0);
    assert MatchAt("manch_token", "manch", 0);
    assert MatchAt("manch_user", "manch", 0);
    assert MatchAt("@paypalcorp/manch", "manch", 12);
  }

  /**
   * Steps 6 to 8 (`manch.db`, `manch_token`, `manch_user`) do nothing to a
   * text that reaches them without a lower-case `manch`.
   */
  lemma StorageStepsInert(s: string, p: Params)
    requires !Contains(Stage(s, p, 5), "manch")
    ensures Stage(s, p, 8) == Stage(s, p, 5)
  {
    ManchInLaterPatterns();
    var t := Stage(s, p, 5);
    PartOfPattern(t, "manch.db", "manch");
    PartOfPattern(t, "manch_token", "manch");
    PartOfPattern(t, "manch_user", "manch");
    InertStep(s, p, 5, t);
    InertStep(s, p, 6, t);
    InertStep(s, p, 7, t);
  }

  /** A step whose pattern does not occur in its input passes it on. */
  lemma InertStep(s: string, p: Params, k: nat, t: string)
    requires k < |PATTERNS| && Stage(s, p, k) == t && !Contains(t, PATTERNS[k])
    ensures Stage(s, p, k + 1) == t
  {
    StageStep(s, p, k);
    ReplaceAllWithoutMatch(t, PATTERNS[k], Rules(p)[k].tmpl);
  }

  /** Step 11 (`@paypalcorp/manch`) does nothing to a text that reaches it without a lower-case `manch`. */
  lemma PackageStepInert(s: string, p: Params)
    requires !Contains(Stage(s, p, 10), "manch")
    ensures RewriteText(s, p) == Stage(s, p, 10)
  {
    ManchInLaterPatterns();
    PartOfPattern(Stage(s, p, 10), "@paypalcorp/manch", "manch");
    StageStep(s, p, 10);
    ReplaceAllWithoutMatch(Stage(s, p, 10), "@paypalcorp/manch", Rules(p)[10].tmpl);
  }
}
