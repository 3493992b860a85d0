/**
 * `text.replace(/pat/g, replacement)` for a regular expression that is a plain
 * literal (no metacharacters, no capture groups), as used by every step of the
 * rewrite chain in scripts/create-platform.js.
 *
 * The matcher scans left to right and replaces non-overlapping occurrences.
 * The replacement string is a template: JavaScript expands `$$`, `$&`, `` $` ``
 * and `$'` in it (section 22.1.3.19.1, GetSubstitution, of ECMA-262); with no
 * capture groups every other `$` stands for itself.
 */
module TextReplace {

  /** `pat` occurs in `s` starting at index `i`. */
  predicate MatchAt(s: string, pat: string, i: int)
  {
    0 <= i && i + |pat| <= |s| && forall k :: 0 <= k < |pat| ==> s[i + k] == pat[k]
  }

  /** `pat` occurs somewhere in `s`. */
  ghost predicate Contains(s: string, pat: string)
  {
    exists i :: MatchAt(s, pat, i)
  }

  predicate NoDollar(t: string)
  {
    '$' !in t
  }

  /**
   * The template with `$$` read as `$`, `$&` as the match `m`, `` $` `` as the
   * text `pre` before it and `$'` as the text `post` after it.
   */
  function Expand(tmpl: string, m: string, pre: string, post: string): (r: string)
    ensures NoDollar(tmpl) ==> r == tmpl
    decreases |tmpl|
  {
    if |tmpl| == 0 then []
    else if tmpl[0] == '$' && |tmpl| >= 2 && tmpl[1] == '$' then "$" + Expand(tmpl[2..], m, pre, post)
    else if tmpl[0] == '$' && |tmpl| >= 2 && tmpl[1] == '&' then m + Expand(tmpl[2..], m, pre, post)
    else if tmpl[0] == '$' && |tmpl| >= 2 && tmpl[1] == '`' then pre + Expand(tmpl[2..], m, pre, post)
    else if tmpl[0] == '$' && |tmpl| >= 2 && tmpl[1] == '\'' then post + Expand(tmpl[2..], m, pre, post)
    else [tmpl[0]] + Expand(tmpl[1..], m, pre, post)
  }

  /** The text that replaces the match `s[start..end]`. */
  function Substitute(tmpl: string, s: string, start: nat, end: nat): (r: string)
    requires start <= end <= |s|
    ensures NoDollar(tmpl) ==> r == tmpl
  {
    Expand(tmpl, s[start..end], s[..start], s[end..])
  }

  /**
   * The rewritten text from index `i` of `s` on: at each position either the
   * pattern matches, and its substitution is emitted and the scan resumes
   * after the match, or one character is copied.
   */
  function Scan(s: string, pat: string, tmpl: string, i: nat): (r: string)
    requires |pat| > 0 && i <= |s|
    ensures NoDollar(tmpl) && |tmpl| == |pat| ==> |r| == |s| - i
    decreases |s| - i
  {
    if i + |pat| > |s| then s[i..]
    else if MatchAt(s, pat, i) then
      Substitute(tmpl, s, i, i + |pat|) + Scan(s, pat, tmpl, i + |pat|)
    else
      [s[i]] + Scan(s, pat, tmpl, i + 1)
  }

  /**
   * `s.replace(/pat/g, tmpl)`: the scan gives what the standard's
   * collect-then-splice definition gives, splicing the substitutions into the
   * matches the global search finds.
   */
  function ReplaceAll(s: string, pat: string, tmpl: string): (r: string)
    requires |pat| > 0
    ensures forall ps :: ps == Matches(s, pat, 0) ==> r == Splice(s, pat, tmpl, ps, 0)
  {
    ScanIsSplice(s, pat, tmpl, 0);
    Scan(s, pat, tmpl, 0)
  }

  // ---------------------------------------------------------------------------
  // The reference reading of ECMA-262: RegExp.prototype[@@replace] with the
  // global flag first collects every match, each found by searching from the
  // end of the previous one, then splices the substitutions into the text.

  /** The first index at or after `from` where `pat` occurs, or -1. */
  function IndexOf(s: string, pat: string, from: nat): (r: int)
    requires |pat| > 0
    ensures r == -1 || (from <= r && MatchAt(s, pat, r))
    ensures forall j :: from <= j && (r == -1 || j < r) ==> !MatchAt(s, pat, j)
    decreases |s| - from
  {
    if from + |pat| > |s| then -1
    else if MatchAt(s, pat, from) then from
    else IndexOf(s, pat, from + 1)
  }

  /** The start of every match the global search finds from `from` on, in order. */
  function Matches(s: string, pat: string, from: nat): (ps: seq<nat>)
    requires |pat| > 0
    ensures Ordered(s, pat, ps, from)
    decreases |s| - from
  {
    var p := IndexOf(s, pat, from);
    if p < 0 then [] else [p as nat] + Matches(s, pat, p + |pat|)
  }

  /** `ps` are starts of matches at or after `from`, in order and not overlapping. */
  predicate Ordered(s: string, pat: string, ps: seq<nat>, from: nat)
    decreases |ps|
  {
    ps == [] ||
      (from <= ps[0] && MatchAt(s, pat, ps[0]) && Ordered(s, pat, ps[1..], ps[0] + |pat|))
  }

  /** Copy the text from `next` up to each match, then the match's substitution. */
  function Splice(s: string, pat: string, tmpl: string, ps: seq<nat>, next: nat): (r: string)
    requires next <= |s| && Ordered(s, pat, ps, next)
    decreases |ps|
  {
    if ps == [] then s[next..]
    else
      s[next..ps[0]] + (Substitute(tmpl, s, ps[0], ps[0] + |pat|)
                        + Splice(s, pat, tmpl, ps[1..], ps[0] + |pat|))
  }

  /** Text without the pattern comes back as it was. */
  lemma ReplaceAllWithoutMatch(s: string, pat: string, tmpl: string)
    requires |pat| > 0
    ensures !Contains(s, pat) ==> ReplaceAll(s, pat, tmpl) == s
  {
    if !Contains(s, pat) {
      ScanSkips(s, pat, tmpl, 0, |s|);
    }
  }

  /** A position where no match starts is copied. */
  lemma ScanSkipOne(s: string, pat: string, tmpl: string, i: nat)
    requires |pat| > 0 && i < |s| && !MatchAt(s, pat, i)
    ensures Scan(s, pat, tmpl, i) == [s[i]] + Scan(s, pat, tmpl, i + 1)
  {
    if i + |pat| > |s| {
      assert s[i..] == [s[i]] + s[i + 1..];
    }
  }

  /** Stretches without a match are copied as they are. */
  lemma {:induction false} ScanSkips(s: string, pat: string, tmpl: string, i: nat, j: nat)
    requires |pat| > 0 && i <= j <= |s|
    requires forall k :: i <= k < j ==> !MatchAt(s, pat, k)
    ensures Scan(s, pat, tmpl, i) == s[i..j] + Scan(s, pat, tmpl, j)
    decreases j - i
  {
    if i < j {
      ScanSkipOne(s, pat, tmpl, i);
      ScanSkips(s, pat, tmpl, i + 1, j);
      assert s[i..j] == [s[i]] + s[i + 1..j];
      AppendAssoc([s[i]], s[i + 1..j], Scan(s, pat, tmpl, j));
    }
  }

  lemma ScanAtMatch(s: string, pat: string, tmpl: string, p: nat)
    requires |pat| > 0 && MatchAt(s, pat, p)
    ensures Scan(s, pat, tmpl, p) == Substitute(tmpl, s, p, p + |pat|) + Scan(s, pat, tmpl, p + |pat|)
  {
  }

  lemma SpliceAtMatch(s: string, pat: string, tmpl: string, i: nat)
    requires |pat| > 0 && i <= |s| && IndexOf(s, pat, i) >= 0
    ensures var p := IndexOf(s, pat, i);
      Splice(s, pat, tmpl, Matches(s, pat, i), i)
      == s[i..p] + (Substitute(tmpl, s, p, p + |pat|) + Splice(s, pat, tmpl, Matches(s, pat, p + |pat|), p + |pat|))
  {
    var p := IndexOf(s, pat, i);
    var ps := Matches(s, pat, i);
    assert ps[0] == p && ps[1..] == Matches(s, pat, p + |pat|);
  }

  lemma ScanPastLastMatch(s: string, pat: string, tmpl: string, i: nat)
    requires |pat| > 0 && i <= |s| && IndexOf(s, pat, i) < 0
    ensures Matches(s, pat, i) == [] && Scan(s, pat, tmpl, i) == s[i..]
  {
    ScanSkips(s, pat, tmpl, i, |s|);
    assert Scan(s, pat, tmpl, |s|) == [];
  }

  /** The scan copies up to the next match, substitutes it and goes on after it. */
  lemma ScanToMatch(s: string, pat: string, tmpl: string, i: nat)
    requires |pat| > 0 && i <= |s| && IndexOf(s, pat, i) >= 0
    ensures var p := IndexOf(s, pat, i);
      Scan(s, pat, tmpl, i)
      == s[i..p] + (Substitute(tmpl, s, p, p + |pat|) + Scan(s, pat, tmpl, p + |pat|))
  {
    var p := IndexOf(s, pat, i);
    ScanSkips(s, pat, tmpl, i, p);
    ScanAtMatch(s, pat, tmpl, p);
  }

  /** One match further: the scan and the splice agree from `i` when they agree after its next match. */
  lemma ScanSpliceStep(s: string, pat: string, tmpl: string, i: nat)
    requires |pat| > 0 && i <= |s| && IndexOf(s, pat, i) >= 0
    requires var q := IndexOf(s, pat, i) + |pat|;
      Scan(s, pat, tmpl, q) == Splice(s, pat, tmpl, Matches(s, pat, q), q)
    ensures Scan(s, pat, tmpl, i) == Splice(s, pat, tmpl, Matches(s, pat, i), i)
  {
    ScanToMatch(s, pat, tmpl, i);
    SpliceAtMatch(s, pat, tmpl, i);
  }

  /** The left-to-right scan and the collect-then-splice reading agree. */
  lemma {:induction false} ScanIsSplice(s: string, pat: string, tmpl: string, i: nat)
    requires |pat| > 0 && i <= |s|
    ensures Scan(s, pat, tmpl, i) == Splice(s, pat, tmpl, Matches(s, pat, i), i)
    decreases |s| - i
  {
    var p := IndexOf(s, pat, i);
    if p >= 0 {
      ScanIsSplice(s, pat, tmpl, p + |pat|);
      ScanSpliceStep(s, pat, tmpl, i);
    } else {
      ScanPastLastMatch(s, pat, tmpl, i);
    }
  }

  /** Some match in `ps`, each `n` long, covers index `j`. */
  ghost predicate Covers(ps: seq<nat>, n: nat, j: int)
  {
    exists k :: 0 <= k < |ps| && ps[k] <= j < ps[k] + n
  }

  /** Every occurrence of the pattern lies inside or overlaps a match the search found. */
  lemma {:induction false} MatchesAreGreedy(s: string, pat: string, from: nat, j: int)
    requires |pat| > 0 && from <= j && MatchAt(s, pat, j)
    ensures Covers(Matches(s, pat, from), |pat|, j)
    decreases |s| - from
  {
    var p := IndexOf(s, pat, from);
    assert p >= 0 && p <= j;
    var rest := Matches(s, pat, p + |pat|);
    var ps := Matches(s, pat, from);
    assert ps == [p as nat] + rest;
    if j < p + |pat| {
      assert ps[0] <= j < ps[0] + |pat|;
    } else {
      MatchesAreGreedy(s, pat, p + |pat|, j);
      var k :| 0 <= k < |rest| && rest[k] <= j < rest[k] + |pat|;
      assert ps[k + 1] == rest[k];
      assert ps[k + 1] <= j < ps[k + 1] + |pat|;
    }
  }

  lemma ExpandMatch(m: string, pre: string, post: string)
    ensures Expand("$&", m, pre, post) == m
  {
    assert "$&"[2..] == [];
    assert m + [] == m;
  }

  /**
   * A template that does not end in a lone `$` expands on its own: whatever
   * follows it cannot pair with its last character.
   */
  lemma {:induction false} ExpandConcat(a: string, b: string, m: string, pre: string, post: string)
    requires a == [] || a[|a| - 1] != '$'
    ensures Expand(a + b, m, pre, post) == Expand(a, m, pre, post) + Expand(b, m, pre, post)
    decreases |a|
  {
    if a == [] {
      assert a + b == b;
    } else {
      var t := a + b;
      var n := if a[0] == '$' && |a| >= 2 && a[1] in "$&`'" then 2 else 1;
      var x := Expand(a[..n], m, pre, post);
      assert a[..n][n..] == [];
      assert t[..n] == a[..n];
      assert t[n..] == a[n..] + b;
      ExpandHead(a, n, m, pre, post);
      ExpandHead(t, n, m, pre, post);
      ExpandConcat(a[n..], b, m, pre, post);
      AppendAssoc(x, Expand(a[n..], m, pre, post), Expand(b, m, pre, post));
    }
  }

  lemma AppendAssoc(x: string, y: string, z: string)
    ensures x + (y + z) == (x + y) + z
  {
  }

  /** The first `n` characters of `t` form its first unit: `$` and one more, or a single character. */
  lemma ExpandHead(t: string, n: nat, m: string, pre: string, post: string)
    requires 1 <= n <= |t|
    requires n == if t[0] == '$' && |t| >= 2 && t[1] in "$&`'" then 2 else 1
    ensures Expand(t, m, pre, post) == Expand(t[..n], m, pre, post) + Expand(t[n..], m, pre, post)
  {
    var h := t[..n];
    if n == 1 {
      ExpandOne(t, m, pre, post);
    } else {
      ExpandTwo(t, m, pre, post);
    }
  }

  lemma ExpandOne(t: string, m: string, pre: string, post: string)
    requires |t| >= 1 && !(t[0] == '$' && |t| >= 2 && t[1] in "$&`'")
    ensures Expand(t, m, pre, post) == Expand(t[..1], m, pre, post) + Expand(t[1..], m, pre, post)
  {
    var h := t[..1];
    assert h[1..] == [];
    assert Expand(h, m, pre, post) == [t[0]];
  }

  lemma ExpandTwo(t: string, m: string, pre: string, post: string)
    requires |t| >= 2 && t[0] == '$' && t[1] in "$&`'"
    ensures Expand(t, m, pre, post) == Expand(t[..2], m, pre, post) + Expand(t[2..], m, pre, post)
  {
    var c := t[1];
    PairPieces(t);
    ExpandUnit(c, t[2..], m, pre, post);
    ExpandUnit(c, [], m, pre, post);
  }

  lemma PairPieces(t: string)
    requires |t| >= 2
    ensures t == [t[0], t[1]] + t[2..]
    ensures t[..2] == [t[0], t[1]] + []
  {
  }

  /** What the pair `$c` expands to, for `c` one of `$`, `&`, `` ` `` and `'`. */
  function UnitValue(c: char, m: string, pre: string, post: string): string
  {
    if c == '$' then "$" else if c == '&' then m else if c == '`' then pre else post
  }

  lemma ExpandUnit(c: char, rest: string, m: string, pre: string, post: string)
    requires c in "$&`'"
    ensures Expand(['$', c] + rest, m, pre, post) == UnitValue(c, m, pre, post) + Expand(rest, m, pre, post)
  {
    var t := ['$', c] + rest;
    assert t[0] == '$' && t[1] == c && t[2..] == rest;
    if c == '$' {
    } else if c == '&' {
    } else if c == '`' {
    } else {
    }
  }

  /** `` $` `` and `$'` give the text around the match, `$$` a single `$`, and any other `$` stands for itself. */
  lemma ExpandPatterns(m: string, pre: string, post: string)
    ensures Expand("$`$&$'", m, pre, post) == pre + m + post
    ensures Expand("$$&", m, pre, post) == "$&"
    ensures Expand("$1$", m, pre, post) == "$1$"
    ensures Expand("$", m, pre, post) == "$"
    ensures forall c, rest | c !in "$&`'" ::
              Expand(['$', c] + rest, m, pre, post) == ['$', c] + Expand(rest, m, pre, post)
  {
    ExpandAround(m, pre, post);
    ExpandDollar(m, pre, post);
    ExpandOther(m, pre, post);
    forall c, rest | c !in "$&`'"
      ensures Expand(['$', c] + rest, m, pre, post) == ['$', c] + Expand(rest, m, pre, post)
    {
      DollarOther(c, rest, m, pre, post);
    }
  }

  /** A `$` before a character that starts no pattern stands for itself, and so does that character. */
  lemma DollarOther(c: char, rest: string, m: string, pre: string, post: string)
    requires c !in "$&`'"
    ensures Expand(['$', c] + rest, m, pre, post) == ['$', c] + Expand(rest, m, pre, post)
  {
    var t := ['$', c] + rest;
    assert t[0] == '$' && t[1] == c && t[1..] == [c] + rest && ([c] + rest)[1..] == rest;
  }

  lemma ExpandAround(m: string, pre: string, post: string)
    ensures Expand("$`$&$'", m, pre, post) == pre + m + post
  {
    var t1, t2, t3 := "$`$&$'", "$&$'", "$'";
    AroundPieces();
    ExpandUnit('`', t2, m, pre, post);
    ExpandUnit('&', t3, m, pre, post);
    ExpandUnit('\'', [], m, pre, post);
    assert Expand(t3, m, pre, post) == post;
    AppendAssoc(pre, m, post);
  }

  lemma AroundPieces()
    ensures "$`$&$'" == ['$', '`'] + "$&$'"
    ensures "$&$'" == ['$', '&'] + "$'"
    ensures "$'" == ['$', '\''] + []
  {
  }

  lemma ExpandDollar(m: string, pre: string, post: string)
    ensures Expand("$$&", m, pre, post) == "$&"
  {
    ExpandUnit('$', "&", m, pre, post);
    assert "&"[1..] == [];
    assert ['$', '$'] + "&" == "$$&";
  }

  lemma ExpandOther(m: string, pre: string, post: string)
    ensures Expand("$1$", m, pre, post) == "$1$"
  {
    assert "$"[1..] == [];
    assert Expand("$", m, pre, post) == "$";
    assert "1$"[1..] == "$";
    assert Expand("1$", m, pre, post) == "1$";
    assert "$1$"[1..] == "1$";
  }

  /** `$&` re-emits each match, so replacing with it changes nothing. */
  lemma {:induction false} ScanMatchItself(s: string, pat: string, i: nat)
    requires |pat| > 0 && i <= |s|
    ensures Scan(s, pat, "$&", i) == s[i..]
    decreases |s| - i
  {
    if i + |pat| > |s| {
    } else if MatchAt(s, pat, i) {
      var q := i + |pat|;
      ScanMatchItself(s, pat, q);
      ExpandMatch(s[i..q], s[..i], s[q..]);
      assert Scan(s, pat, "$&", i) == s[i..q] + s[q..];
      assert s[i..] == s[i..q] + s[q..];
    } else {
      ScanMatchItself(s, pat, i + 1);
      assert s[i..] == [s[i]] + s[i + 1..];
    }
  }

  /** An occurrence of `pat` carries every occurrence of a part `q` of it. */
  lemma MatchOfPart(s: string, pat: string, i: int, q: string, k: int)
    requires MatchAt(s, pat, i) && MatchAt(pat, q, k)
    ensures MatchAt(s, q, i + k)
  {
    forall m | 0 <= m < |q| ensures s[i + k + m] == q[m] {
      assert s[i + (k + m)] == pat[k + m];
    }
  }

  /** Text that holds `pat` holds every part of it; so text without the part has no `pat`. */
  lemma PartOfPattern(s: string, pat: string, q: string)
    requires Contains(pat, q)
    ensures Contains(s, pat) ==> Contains(s, q)
  {
    if Contains(s, pat) {
      var i :| MatchAt(s, pat, i);
      var k :| MatchAt(pat, q, k);
      MatchOfPart(s, pat, i, q, k);
    }
  }

  // ---------------------------------------------------------------------------
  // Local facts for working out a replacement on a given text.

  /** A match begins with the pattern's first character. */
  lemma MatchAtHead(s: string, pat: string, i: int)
    requires |pat| > 0
    ensures MatchAt(s, pat, i) ==> 0 <= i < |s| && s[i] == pat[0]
  {
    if MatchAt(s, pat, i) {
      assert s[i + 0] == pat[0];
    }
  }

  /** One differing character rules a match out. */
  lemma Mismatch(s: string, pat: string, i: int, d: int)
    requires 0 <= d < |pat|
    requires 0 <= i && i + |pat| <= |s| ==> s[i + d] != pat[d]
    ensures !MatchAt(s, pat, i)
  {
  }

  /** A text without the pattern's first character has no occurrence of it. */
  lemma NoLeadChar(s: string, pat: string)
    requires |pat| > 0 && pat[0] !in s
    ensures !Contains(s, pat)
  {
    forall i ensures !MatchAt(s, pat, i) {
      MatchAtHead(s, pat, i);
    }
  }

  /** The only candidate is one character; if no match starts there, there is none. */
  lemma NoMatchAround(a: string, m: string, b: string, pat: string)
    requires |pat| > 0 && |m| == 1
    requires pat[0] !in a && pat[0] !in b && !MatchAt(m + b, pat, 0)
    ensures !Contains(a + m + b, pat)
  {
    var s := a + m + b;
    forall i ensures !MatchAt(s, pat, i) {
      MatchAtHead(s, pat, i);
      if 0 <= i < |a| {
        assert s[i] == a[i];
      } else if i == |a| {
        assert forall d :: 0 <= d < |pat| && i + d < |s| ==> s[i + d] == (m + b)[d];
      } else if |a| < i < |s| {
        assert s[i] == b[i - |a| - 1];
      }
    }
  }

  lemma NoMatchOutside(a: string, pat: string, b: string)
    requires |pat| > 0 && pat[0] !in a && pat[0] !in b
    ensures forall k :: 0 <= k < |a| ==> !MatchAt(a + pat + b, pat, k)
    ensures forall k :: |a| + |pat| <= k ==> !MatchAt(a + pat + b, pat, k)
  {
    var s := a + pat + b;
    var j := |a| + |pat|;
    forall k | 0 <= k < |a| ensures !MatchAt(s, pat, k) {
      MatchAtHead(s, pat, k);
      assert s[k] == a[k];
    }
    forall k | j <= k ensures !MatchAt(s, pat, k) {
      MatchAtHead(s, pat, k);
      if k < |s| { assert s[k] == b[k - j]; }
    }
  }

  /** After the one occurrence, the rest of the text is copied. */
  lemma ScanAfterSingle(s: string, a: string, pat: string, b: string, tmpl: string)
    requires |pat| > 0 && pat[0] !in a && pat[0] !in b && s == a + pat + b
    ensures Scan(s, pat, tmpl, |a| + |pat|) == b
  {
    NoMatchOutside(a, pat, b);
    ScanSkips(s, pat, tmpl, |a| + |pat|, |s|);
    assert s[|a| + |pat|..|s|] == b;
  }

  /** From the one occurrence on, the text becomes the template and the rest. */
  lemma ScanFromSingle(s: string, a: string, pat: string, b: string, tmpl: string)
    requires |pat| > 0 && pat[0] !in a && pat[0] !in b && s == a + pat + b && NoDollar(tmpl)
    ensures Scan(s, pat, tmpl, |a|) == tmpl + b
  {
    assert forall d :: 0 <= d < |pat| ==> s[|a| + d] == pat[d];
    ScanAtMatch(s, pat, tmpl, |a|);
    ScanAfterSingle(s, a, pat, b, tmpl);
  }

  /** A text with exactly one occurrence, and no other place its first character appears. */
  lemma ReplaceSingle(a: string, pat: string, b: string, tmpl: string)
    requires |pat| > 0 && pat[0] !in a && pat[0] !in b && NoDollar(tmpl)
    ensures ReplaceAll(a + pat + b, pat, tmpl) == a + tmpl + b
  {
    var s := a + pat + b;
    NoMatchOutside(a, pat, b);
    ScanSkips(s, pat, tmpl, 0, |a|);
    assert s[0..|a|] == a;
    ScanFromSingle(s, a, pat, b, tmpl);
    assert a + (tmpl + b) == a + tmpl + b;
  }
}
