/**
 * The worked example of the script's usage line, `Adda 3100 3102 teal cyan`,
 * followed through the rewrite chain on one line of source text.
 */
module RewriteExample {
  import opened TextReplace
  import opened Arguments
  import opened Rewrite

  /** The command line of the usage example. */
  const ADDA := Params("Adda", "3100", "3102", "teal", "cyan")

  /** None of the first characters of the patterns that could match in the sample. */
  predicate Inert(t: string)
  {
    'M' !in t && 'm' !in t && '3' !in t && 'i' !in t
  }

  /** The sample's fixed parts avoid those characters, so that only the shown tokens can match. */
  predicate Plain(a: string, b: string, c: string)
  {
    Inert(a) && Inert(b) && Inert(c)
  }

  lemma AddaLower()
    ensures ADDA.Lower() == "adda"
  {
  }

  /** Step 1: no `Manch`. */
  lemma AddaStep1(a: string, b: string, c: string, p: Params)
    requires p == ADDA && Plain(a, b, c)
    ensures Stage(a + "3000" + b + "manch" + c, p, 1) == a + "3000" + b + "manch" + c
  {
    var s := a + "3000" + b + "manch" + c;
    assert Rules(p)[..0] == [];
    StageStep(s, p, 0);
    NoLeadChar(s, "Manch");
    ReplaceAllWithoutMatch(s, "Manch", "Adda");
  }

  /** Step 2: the one `manch` becomes `adda`. */
  lemma AddaStep2(a: string, b: string, c: string, p: Params)
    requires p == ADDA && Plain(a, b, c)
    ensures Stage(a + "3000" + b + "manch" + c, p, 2) == a + "3000" + b + "adda" + c
  {
    var s := a + "3000" + b + "manch" + c;
    AddaStep1(a, b, c, p);
    AddaLower();
    SingleStep(s, p, 1, a + "3000" + b, c);
  }

  /** A step whose pattern occurs once, with its first character nowhere else, puts its `$`-free value there. */
  lemma SingleStep(s: string, p: Params, k: nat, x: string, y: string)
    requires k < |PATTERNS| && Stage(s, p, k) == x + PATTERNS[k] + y
    requires PATTERNS[k][0] !in x && PATTERNS[k][0] !in y && NoDollar(Rules(p)[k].tmpl)
    ensures Stage(s, p, k + 1) == x + Rules(p)[k].tmpl + y
  {
    StageStep(s, p, k);
    ReplaceSingle(x, PATTERNS[k], y, Rules(p)[k].tmpl);
  }

  /** Step 3: no `MANCH`. */
  lemma AddaStep3(a: string, b: string, c: string, p: Params)
    requires p == ADDA && Plain(a, b, c)
    ensures Stage(a + "3000" + b + "manch" + c, p, 3) == a + "3000" + b + "adda" + c
  {
    var s := a + "3000" + b + "manch" + c;
    var s2 := a + "3000" + b + "adda" + c;
    AddaStep2(a, b, c, p);
    StageStep(s, p, 2);
    NoLeadChar(s2, "MANCH");
    ReplaceAllWithoutMatch(s2, "MANCH", p.Upper());
  }

  lemma Regroup(a: string, x: string, b: string, y: string, c: string)
    ensures a + x + b + y + c == a + x + (b + y + c)
  {
  }

  /** Step 4: the one `3000` becomes `3100`. */
  lemma AddaStep4(a: string, b: string, c: string, p: Params)
    requires p == ADDA && Plain(a, b, c)
    ensures Stage(a + "3000" + b + "manch" + c, p, 4) == a + "3100" + b + "adda" + c
  {
    var s := a + "3000" + b + "manch" + c;
    var s2 := a + "3000" + b + "adda" + c;
    AddaStep3(a, b, c, p);
    StageStep(s, p, 3);
    Regroup(a, "3000", b, "adda", c);
    Regroup(a, "3100", b, "adda", c);
    assert '3' !in "adda";
    ReplaceSingle(a, "3000", b + "adda" + c, "3100");
  }

  /** Step 5: `3100` holds no `3002`. */
  lemma AddaStep5(a: string, b: string, c: string, p: Params)
    requires p == ADDA && Plain(a, b, c)
    ensures Stage(a + "3000" + b + "manch" + c, p, 5) == a + "3100" + b + "adda" + c
  {
    var s := a + "3000" + b + "manch" + c;
    var s4 := a + "3100" + b + "adda" + c;
    AddaStep4(a, b, c, p);
    StageStep(s, p, 4);
    No3002(a, b, c);
    ReplaceAllWithoutMatch(s4, "3002", "3102");
  }

  /** The rewritten port `3100` does not read as `3002`. */
  lemma No3002(a: string, b: string, c: string)
    requires Plain(a, b, c)
    ensures !Contains(a + "3100" + b + "adda" + c, "3002")
  {
    assert a + "3100" + b + "adda" + c == a + "3" + ("100" + b + "adda" + c);
    Mismatch("3" + ("100" + b + "adda" + c), "3002", 0, 1);
    NoMatchAround(a, "3", "100" + b + "adda" + c, "3002");
  }

  /** Steps 6 to 10: no `manch` is left, no `indigo-`, and no `purple-` by assumption. */
  lemma AddaStep10(a: string, b: string, c: string, p: Params)
    requires p == ADDA && Plain(a, b, c)
    requires !Contains(a + "3100" + b + "adda" + c, "purple-")
    ensures Stage(a + "3000" + b + "manch" + c, p, 10) == a + "3100" + b + "adda" + c
  {
    var s := a + "3000" + b + "manch" + c;
    var s4 := a + "3100" + b + "adda" + c;
    AddaStep5(a, b, c, p);
    AddaLeftovers(a, b, c);
    StorageStepsInert(s, p);
    InertStep(s, p, 8, s4);
    InertStep(s, p, 9, s4);
  }

  /** After step 5 the sample holds no `manch` and no `indigo-`. */
  lemma AddaLeftovers(a: string, b: string, c: string)
    requires Plain(a, b, c)
    ensures !Contains(a + "3100" + b + "adda" + c, "manch")
    ensures !Contains(a + "3100" + b + "adda" + c, "indigo-")
  {
    var s4 := a + "3100" + b + "adda" + c;
    NoLeadChar(s4, "manch");
    NoLeadChar(s4, "indigo-");
  }

  /** The whole chain on a line of the shape `a 3000 b manch c`. */
  lemma AddaStages(a: string, b: string, c: string, p: Params)
    requires p == ADDA && Plain(a, b, c)
    requires !Contains(a + "3100" + b + "adda" + c, "purple-")
    ensures RewriteText(a + "3000" + b + "manch" + c, p) == a + "3100" + b + "adda" + c
  {
    AddaStep10(a, b, c, p);
    NoLeadChar(a + "3100" + b + "adda" + c, "manch");
    PackageStepInert(a + "3000" + b + "manch" + c, p);
  }

  /** The sample line and its expected output, cut into the pieces the stage lemmas use. */
  lemma SampleConcat()
    ensures "const port = " + "3000" + "; // " + "manch" + "_token" == "const port = 3000; // manch_token"
    ensures "const port = " + "3100" + "; // " + "adda" + "_token" == "const port = 3100; // adda_token"
  {
  }

  lemma SamplePlain()
    ensures Plain("const port = ", "; // ", "_token")
  {
    assert Inert("const port = ");
    assert Inert("; // ");
    assert Inert("_token");
  }

  lemma SampleNoPurple()
    ensures !Contains("const port = " + "3100" + "; // " + "adda" + "_token", "purple-")
  {
    assert "const " + "p" + "ort = 3100; // adda_token" == "const port = " + "3100" + "; // " + "adda" + "_token";
    Mismatch("p" + "ort = 3100; // adda_token", "purple-", 0, 1);
    NoMatchAround("const ", "p", "ort = 3100; // adda_token", "purple-");
  }

  /** `const port = 3000; // manch_token` becomes `const port = 3100; // adda_token`. */
  lemma AddaExample()
    ensures RewriteText("const port = 3000; // manch_token", ADDA) == "const port = 3100; // adda_token"
  {
    SampleConcat();
    SamplePlain();
    SampleNoPurple();
    AddaStages("const port = ", "; // ", "_token", ADDA);
  }

  /** Steps 1 to 3 leave alone a text with no `M` or `m`. */
  lemma NameStepsInert(s: string, p: Params)
    requires 'M' !in s && 'm' !in s
    ensures Stage(s, p, 3) == s
  {
    assert Rules(p)[..0] == [];
    StageStep(s, p, 0);
    NoLeadChar(s, "Manch");
    ReplaceAllWithoutMatch(s, "Manch", p.platformName);
    StageStep(s, p, 1);
    NoLeadChar(s, "manch");
    ReplaceAllWithoutMatch(s, "manch", p.Lower());
    StageStep(s, p, 2);
    NoLeadChar(s, "MANCH");
    ReplaceAllWithoutMatch(s, "MANCH", p.Upper());
  }

  /**
   * Order matters: when the backend port is `3002`, each `3000` that step 4
   * turns into `3002` is turned by step 5 into the frontend port.
   */
  lemma BackendPortRewrittenAgain(a: string, b: string, p: Params)
    requires p.backendPort == "3002" && NoDollar(p.frontendPort)
    requires '3' !in a && '3' !in b && 'M' !in a + b && 'm' !in a + b
    ensures Stage(a + "3000" + b, p, 5) == a + p.frontendPort + b
  {
    var s := a + "3000" + b;
    BackendPortStep(a, b, p);
    SingleStep(s, p, 4, a, b);
  }

  /** Step 4 writes the backend port `3002` in place of the `3000`. */
  lemma BackendPortStep(a: string, b: string, p: Params)
    requires p.backendPort == "3002"
    requires '3' !in a && '3' !in b && 'M' !in a + b && 'm' !in a + b
    ensures Stage(a + "3000" + b, p, 4) == a + "3002" + b
  {
    var s := a + "3000" + b;
    NoNameLead(a, b);
    NameStepsInert(s, p);
    SingleStep(s, p, 3, a, b);
  }

  lemma NoNameLead(a: string, b: string)
    requires 'M' !in a + b && 'm' !in a + b
    ensures 'M' !in a + "3000" + b && 'm' !in a + "3000" + b
  {
    assert forall x :: x in a + "3000" + b ==> x in a + b || x in "3000";
  }

  /**
   * A replacement can re-form the pattern it replaced: with the name `Man`,
   * step 1 turns `Manchch` into `Manch`.
   */
  lemma ReplacementReformsPattern()
    ensures ReplaceAll("Manchch", "Manch", "Man") == "Manch"
    ensures Contains("Manch", "Manch")
  {
    ReplaceSingle([], "Manch", "ch", "Man");
    assert [] + "Manch" + "ch" == "Manchch";
    assert [] + "Man" + "ch" == "Manch";
    assert MatchAt("Manch", "Manch", 0);
  }

  /**
   * The values are replacement templates, not literal text: a platform name
   * of `$&` puts each matched `Manch` back, so step 1 changes nothing.
   */
  lemma DollarNameKeepsMatch(s: string, p: Params)
    requires p.platformName == "$&"
    ensures Stage(s, p, 1) == s
  {
    assert Rules(p)[..0] == [];
    StageStep(s, p, 0);
    ScanMatchItself(s, "Manch", 0);
  }
}
