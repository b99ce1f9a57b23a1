/**
 * The control-rule grammar written out as text, and the matcher of
 * `ControlsParser` checked against it in both directions: a line spelled
 * from the grammar is matched with exactly the groups it was spelled from,
 * and every line the matcher accepts begins with such a spelling.
 */
module ControlsGrammar {
  import opened Wrappers
  import opened Text
  import opened ControlsParser

  /** The optional `PRIORITY <int>` clause as it appears in a line. */
  datatype PriorityText = PriorityText(gap: string, keyword: string, gap2: string, digits: string)

  /**
   * One spelling of `LINK <link> <action> IF NODE <node> <comparator> <threshold> [PRIORITY <int>]`:
   * each keyword in the case it is written in, and the whitespace between the items.
   */
  datatype RuleText = RuleText(
    linkKw: string, gap1: string, link: string, gap2: string, action: string,
    gap3: string, ifKw: string, gap4: string, nodeKw: string, gap5: string, node: string,
    gap6: string, comparator: string, gap7: string, threshold: string,
    priority: Option<PriorityText>)

  /** A non-empty run of whitespace, `\s+`. */
  predicate IsGap(w: string) {
    |w| > 0 && forall k :: 0 <= k < |w| ==> IsSpace(w[k])
  }

  /** `w` is the keyword `kw` written in any case. */
  predicate Spells(w: string, kw: string) {
    IsKeyword(kw) && MatchesKeyword(w, kw)
  }

  predicate IsNumberText(w: string) {
    |w| > 0 && forall k :: 0 <= k < |w| ==> IsNumberChar(w[k])
  }

  predicate WellSpelledPriority(q: PriorityText) {
    IsGap(q.gap) && Spells(q.keyword, "PRIORITY") && IsGap(q.gap2) &&
    |q.digits| > 0 && IsDigits(q.digits)
  }

  /** Every item of the spelling is of the kind the grammar asks for at its place. */
  predicate WellSpelled(rt: RuleText) {
    Spells(rt.linkKw, "LINK") && IsGap(rt.gap1) && IsWord(rt.link) && IsGap(rt.gap2) &&
    (Spells(rt.action, "OPEN") || Spells(rt.action, "CLOSED")) &&
    IsGap(rt.gap3) && Spells(rt.ifKw, "IF") && IsGap(rt.gap4) &&
    Spells(rt.nodeKw, "NODE") && IsGap(rt.gap5) && IsWord(rt.node) && IsGap(rt.gap6) &&
    (Spells(rt.comparator, "BELOW") || Spells(rt.comparator, "ABOVE")) &&
    IsGap(rt.gap7) && IsNumberText(rt.threshold) &&
    (rt.priority.Some? ==> WellSpelledPriority(rt.priority.value))
  }

  function PriorityLine(p: Option<PriorityText>, tail: string): string {
    match p
    case None => tail
    case Some(q) => q.gap + (q.keyword + (q.gap2 + (q.digits + tail)))
  }

  /** The items from the comparator on. */
  function ComparisonLine(rt: RuleText, tail: string): string {
    rt.gap6 + (rt.comparator + (rt.gap7 + (rt.threshold + PriorityLine(rt.priority, tail))))
  }

  /** The items from `IF` to the node. */
  function NodeLine(rt: RuleText, tail: string): string {
    rt.gap3 + (rt.ifKw + (rt.gap4 + (rt.nodeKw + (rt.gap5 + (rt.node + ComparisonLine(rt, tail))))))
  }

  /** The text of the spelling, followed by `tail`. */
  function Spelled(rt: RuleText, tail: string): string {
    rt.linkKw + (rt.gap1 + (rt.link + (rt.gap2 + (rt.action + NodeLine(rt, tail)))))
  }

  /** The groups the regular expression should capture from a spelling. */
  function Captured(rt: RuleText): Captures {
    Captures(rt.link, rt.action, rt.node, rt.comparator, rt.threshold,
             if rt.priority.Some? then Some(rt.priority.value.digits) else None)
  }

  /**
   * Text that may follow a spelling without changing what is matched: the
   * greedy runs must end where the spelling ends, and without a priority
   * clause the tail must not start one.
   */
  predicate EndsRule(rt: RuleText, tail: string) {
    tail == [] ||
    (if rt.priority.Some? then !IsDigit(tail[0]) else !IsNumberChar(tail[0]) && !IsSpace(tail[0]))
  }

  // ---------------------------------------------------------------------
  // Single items
  // ---------------------------------------------------------------------

  lemma {:induction false} RunSpan(t: string, i: nat, w: string, r: string, p: char -> bool)
    requires i <= |t| && t[i..] == w + r
    requires forall k :: 0 <= k < |w| ==> p(w[k])
    requires r == [] || !p(r[0])
    ensures Run(t, i, p) == i + |w|
    decreases |w|
  {
    if w == [] {
      assert t[i..] == r;
      if r != [] {
        assert t[i] == t[i..][0] == r[0];
      }
    } else {
      assert t[i] == t[i..][0] == w[0];
      assert t[i + 1..] == t[i..][1..] == w[1..] + r;
      RunSpan(t, i + 1, w[1..], r, p);
    }
  }

  lemma SplitAt(t: string, i: nat, w: string, r: string)
    requires i <= |t| && t[i..] == w + r
    ensures i + |w| <= |t| && t[i..i + |w|] == w && t[i + |w|..] == r
  {
    assert t[i..i + |w|] == t[i..][..|w|];
    assert t[i + |w|..] == t[i..][|w|..];
  }

  lemma PlusSpan(t: string, i: nat, w: string, r: string, p: char -> bool)
    requires i <= |t| && t[i..] == w + r
    requires |w| > 0 && forall k :: 0 <= k < |w| ==> p(w[k])
    requires r == [] || !p(r[0])
    ensures Plus(t, i, p) == Some(i + |w|)
    ensures i + |w| <= |t| && t[i..i + |w|] == w && t[i + |w|..] == r
  {
    RunSpan(t, i, w, r, p);
    SplitAt(t, i, w, r);
  }

  lemma KeywordSpan(t: string, i: nat, w: string, r: string, kw: string)
    requires i <= |t| && t[i..] == w + r
    requires IsKeyword(kw) && MatchesKeyword(w, kw)
    ensures Keyword(t, i, kw) == Some(i + |w|)
    ensures i + |w| <= |t| && t[i..i + |w|] == w && t[i + |w|..] == r
  {
    SplitAt(t, i, w, r);
  }

  /** No character matches two different letters case-insensitively. */
  lemma LettersDisjoint(c: char, u: char, v: char)
    requires 'A' <= u <= 'Z' && 'A' <= v <= 'Z' && u != v
    ensures !(MatchesLetter(c, u) && MatchesLetter(c, v))
  {
  }

  /** A character that matches a letter is not whitespace. */
  lemma LetterNotSpace(c: char, u: char)
    requires 'A' <= u <= 'Z' && MatchesLetter(c, u)
    ensures !IsSpace(c)
  {
  }

  lemma EitherSpan(t: string, i: nat, w: string, r: string, a: string, b: string)
    requires i <= |t| && t[i..] == w + r
    requires IsKeyword(a) && IsKeyword(b) && |a| > 0 && |b| > 0 && a[0] != b[0]
    requires MatchesKeyword(w, a) || MatchesKeyword(w, b)
    ensures Either(t, i, a, b) == Some(i + |w|)
    ensures i + |w| <= |t| && t[i..i + |w|] == w && t[i + |w|..] == r
  {
    if MatchesKeyword(w, a) {
      KeywordSpan(t, i, w, r, a);
    } else {
      KeywordSpan(t, i, w, r, b);
      if Keyword(t, i, a).Some? {
        assert t[i..i + |a|][0] == t[i] == w[0];
        LettersDisjoint(t[i], a[0], b[0]);
      }
    }
  }

  // ---------------------------------------------------------------------
  // Whitespace followed by one item
  // ---------------------------------------------------------------------

  /** A keyword at the start of `t`, which ends at `a`. */
  lemma LeadingKeyword(t: string, w: string, r: string, kw: string) returns (a: nat)
    requires t == w + r && IsKeyword(kw) && MatchesKeyword(w, kw)
    ensures a <= |t| && Keyword(t, 0, kw) == Some(a) && t[a..] == r
  {
    assert t[0..] == t;
    KeywordSpan(t, 0, w, r, kw);
    a := |w|;
  }

  /** `\s+` then a run of `p`: the run is matched from `a` to `b`. */
  lemma GapThenRun(t: string, i: nat, gap: string, w: string, r: string, p: char -> bool)
    returns (a: nat, b: nat)
    requires i <= |t| && t[i..] == gap + (w + r)
    requires IsGap(gap) && |w| > 0 && !IsSpace(w[0])
    requires forall k :: 0 <= k < |w| ==> p(w[k])
    requires r == [] || !p(r[0])
    ensures i <= a <= b <= |t|
    ensures Plus(t, i, IsSpace) == Some(a) && Plus(t, a, p) == Some(b)
    ensures t[a..b] == w && t[b..] == r
  {
    assert (w + r)[0] == w[0];
    PlusSpan(t, i, gap, w + r, IsSpace);
    PlusSpan(t, i + |gap|, w, r, p);
    a, b := i + |gap|, i + |gap| + |w|;
  }

  /** `\s+` then a keyword, which ends at `b`. */
  lemma GapThenKeyword(t: string, i: nat, gap: string, w: string, r: string, kw: string)
    returns (a: nat, b: nat)
    requires i <= |t| && t[i..] == gap + (w + r)
    requires IsGap(gap) && IsKeyword(kw) && |kw| > 0 && MatchesKeyword(w, kw)
    ensures i <= a <= b <= |t|
    ensures Plus(t, i, IsSpace) == Some(a) && Keyword(t, a, kw) == Some(b)
    ensures t[b..] == r
  {
    assert (w + r)[0] == w[0];
    LetterNotSpace(w[0], kw[0]);
    PlusSpan(t, i, gap, w + r, IsSpace);
    KeywordSpan(t, i + |gap|, w, r, kw);
    a, b := i + |gap|, i + |gap| + |w|;
  }

  /** `\s+` then one of two keywords, matched from `a` to `b`. */
  lemma GapThenEither(t: string, i: nat, gap: string, w: string, r: string, x: string, y: string)
    returns (a: nat, b: nat)
    requires i <= |t| && t[i..] == gap + (w + r)
    requires IsGap(gap) && IsKeyword(x) && IsKeyword(y) && |x| > 0 && |y| > 0 && x[0] != y[0]
    requires MatchesKeyword(w, x) || MatchesKeyword(w, y)
    ensures i <= a <= b <= |t|
    ensures Plus(t, i, IsSpace) == Some(a) && Either(t, a, x, y) == Some(b)
    ensures t[a..b] == w && t[b..] == r
  {
    assert (w + r)[0] == w[0];
    if MatchesKeyword(w, x) {
      LetterNotSpace(w[0], x[0]);
    } else {
      LetterNotSpace(w[0], y[0]);
    }
    PlusSpan(t, i, gap, w + r, IsSpace);
    EitherSpan(t, i + |gap|, w, r, x, y);
    a, b := i + |gap|, i + |gap| + |w|;
  }

  /** The keywords of the pattern are upper-case words. */
  lemma PatternKeywords()
    ensures IsKeyword("LINK") && IsKeyword("OPEN") && IsKeyword("CLOSED") && IsKeyword("IF")
    ensures IsKeyword("NODE") && IsKeyword("BELOW") && IsKeyword("ABOVE") && IsKeyword("PRIORITY")
  {
  }

  // ---------------------------------------------------------------------
  // The matcher's steps
  // ---------------------------------------------------------------------

  lemma PriorityClauseSteps(t: string, i: nat, a: nat, b: nat, c: nat, d: nat)
    requires i <= a <= |t| && b <= |t| && c <= d <= |t|
    requires Plus(t, i, IsSpace) == Some(a) && Keyword(t, a, "PRIORITY") == Some(b)
    requires Plus(t, b, IsSpace) == Some(c) && Plus(t, c, IsDigit) == Some(d)
    ensures PriorityClause(t, i) == Some(t[c..d])
  {
  }

  lemma MatchComparisonSteps(t: string, i: nat, a: nat, b: nat, c: nat, d: nat)
    requires i <= a <= b <= |t| && c <= d <= |t|
    requires Plus(t, i, IsSpace) == Some(a) && Either(t, a, "BELOW", "ABOVE") == Some(b)
    requires Plus(t, b, IsSpace) == Some(c) && Plus(t, c, IsNumberChar) == Some(d)
    ensures MatchComparison(t, i) == Some((t[a..b], t[c..d], d))
  {
  }

  lemma MatchNodeSteps(t: string, i: nat, f: nat, g: nat, h: nat, j: nat, k: nat, l: nat)
    requires i <= f <= |t| && g <= |t| && h <= |t| && j <= |t| && k <= l <= |t|
    requires Plus(t, i, IsSpace) == Some(f) && Keyword(t, f, "IF") == Some(g)
    requires Plus(t, g, IsSpace) == Some(h) && Keyword(t, h, "NODE") == Some(j)
    requires Plus(t, j, IsSpace) == Some(k) && Plus(t, k, NotSpace) == Some(l)
    ensures MatchNode(t, i) == Some((t[k..l], l))
  {
  }

  lemma MatchActionSteps(t: string, a: nat, b: nat, c: nat, d: nat, e: nat)
    requires a <= |t| && b <= c <= |t| && d <= e <= |t|
    requires Keyword(t, 0, "LINK") == Some(a) && Plus(t, a, IsSpace) == Some(b)
    requires Plus(t, b, NotSpace) == Some(c) && Plus(t, c, IsSpace) == Some(d)
    requires Either(t, d, "OPEN", "CLOSED") == Some(e)
    ensures MatchAction(t) == Some((t[b..c], t[d..e], e))
  {
  }

  lemma MatchRuleSteps(t: string, act: (string, string, nat), nd: (string, nat), cmp: (string, string, nat))
    requires MatchAction(t) == Some(act) && act.2 <= |t|
    requires MatchNode(t, act.2) == Some(nd) && nd.1 <= |t|
    requires MatchComparison(t, nd.1) == Some(cmp) && cmp.2 <= |t|
    ensures MatchRule(t) == Some(Captures(act.0, act.1, nd.0, cmp.0, cmp.1, PriorityClause(t, cmp.2)))
  {
  }

  // ---------------------------------------------------------------------
  // Completeness: a spelled line is matched with its own groups
  // ---------------------------------------------------------------------

  /** A priority clause is matched and gives its digits. */
  lemma PrioritySpan(t: string, i: nat, q: PriorityText, tail: string)
    requires i <= |t| && t[i..] == q.gap + (q.keyword + (q.gap2 + (q.digits + tail)))
    requires WellSpelledPriority(q) && (tail == [] || !IsDigit(tail[0]))
    ensures PriorityClause(t, i) == Some(q.digits)
  {
    PatternKeywords();
    var a, b := GapThenKeyword(t, i, q.gap, q.keyword, q.gap2 + (q.digits + tail), "PRIORITY");
    var c, d := GapThenRun(t, b, q.gap2, q.digits, tail, IsDigit);
    PriorityClauseSteps(t, i, a, b, c, d);
  }

  /** Without a priority clause, a tail that does not start with whitespace gives no priority. */
  lemma NoPrioritySpan(t: string, i: nat, tail: string)
    requires i <= |t| && t[i..] == tail
    requires tail == [] || !IsSpace(tail[0])
    ensures PriorityClause(t, i).None?
  {
    RunSpan(t, i, [], tail, IsSpace);
  }

  /** The comparison is matched with its comparator and threshold and ends at `e`. */
  lemma ComparisonSpan(t: string, i: nat, rt: RuleText, tail: string) returns (e: nat)
    requires i <= |t| && t[i..] == ComparisonLine(rt, tail)
    requires WellSpelled(rt) && EndsRule(rt, tail)
    ensures e <= |t| && MatchComparison(t, i) == Some((rt.comparator, rt.threshold, e))
    ensures t[e..] == PriorityLine(rt.priority, tail)
  {
    PatternKeywords();
    var rest := PriorityLine(rt.priority, tail);
    var a, b := GapThenEither(t, i, rt.gap6, rt.comparator, rt.gap7 + (rt.threshold + rest), "BELOW", "ABOVE");
    if rt.priority.Some? {
      assert rest[0] == rt.priority.value.gap[0];
    }
    assert IsNumberChar(rt.threshold[0]);
    var c, d := GapThenRun(t, b, rt.gap7, rt.threshold, rest, IsNumberChar);
    MatchComparisonSteps(t, i, a, b, c, d);
    e := d;
  }

  /** `IF NODE <node>` is matched with its node and ends at `e`. */
  lemma NodeSpan(t: string, i: nat, rt: RuleText, tail: string) returns (e: nat)
    requires i <= |t| && t[i..] == NodeLine(rt, tail)
    requires WellSpelled(rt)
    ensures e <= |t| && MatchNode(t, i) == Some((rt.node, e))
    ensures t[e..] == ComparisonLine(rt, tail)
  {
    PatternKeywords();
    var rest := ComparisonLine(rt, tail);
    var f, g := GapThenKeyword(t, i, rt.gap3, rt.ifKw, rt.gap4 + (rt.nodeKw + (rt.gap5 + (rt.node + rest))), "IF");
    var h, j := GapThenKeyword(t, g, rt.gap4, rt.nodeKw, rt.gap5 + (rt.node + rest), "NODE");
    assert rest[0] == rt.gap6[0];
    var k, l := GapThenRun(t, j, rt.gap5, rt.node, rest, NotSpace);
    MatchNodeSteps(t, i, f, g, h, j, k, l);
    e := l;
  }

  /** `LINK <link>` is matched at the start; the link runs from `b` to `c`. */
  lemma LinkSpan(t: string, rt: RuleText, tail: string) returns (a: nat, b: nat, c: nat)
    requires t == Spelled(rt, tail)
    requires WellSpelled(rt)
    ensures a <= b <= c <= |t|
    ensures Keyword(t, 0, "LINK") == Some(a) && Plus(t, a, IsSpace) == Some(b) && Plus(t, b, NotSpace) == Some(c)
    ensures t[b..c] == rt.link && t[c..] == rt.gap2 + (rt.action + NodeLine(rt, tail))
  {
    var rest := rt.gap2 + (rt.action + NodeLine(rt, tail));
    a := LeadingKeyword(t, rt.linkKw, rt.gap1 + (rt.link + rest), "LINK");
    assert rest[0] == rt.gap2[0];
    b, c := GapThenRun(t, a, rt.gap1, rt.link, rest, NotSpace);
  }

  /** `LINK <link> <action>` is matched at the start with its link and action and ends at `e`. */
  lemma ActionSpan(t: string, rt: RuleText, tail: string) returns (e: nat)
    requires t == Spelled(rt, tail)
    requires WellSpelled(rt)
    ensures e <= |t| && MatchAction(t) == Some((rt.link, rt.action, e))
    ensures t[e..] == NodeLine(rt, tail)
  {
    PatternKeywords();
    var a, b, c := LinkSpan(t, rt, tail);
    var d, f := GapThenEither(t, c, rt.gap2, rt.action, NodeLine(rt, tail), "OPEN", "CLOSED");
    MatchActionSteps(t, a, b, c, d, f);
    e := f;
  }

  /**
   * No false negatives in the matcher: a line that spells the grammar, with
   * any tail that does not extend its last item, is matched, and the groups
   * are the items it was spelled from (the priority digits when the clause
   * is present, None otherwise).
   */
  lemma SpelledLineMatches(rt: RuleText, tail: string)
    requires WellSpelled(rt) && EndsRule(rt, tail)
    ensures MatchRule(Spelled(rt, tail)) == Some(Captured(rt))
  {
    var t := Spelled(rt, tail);
    var a := ActionSpan(t, rt, tail);
    var n := NodeSpan(t, a, rt, tail);
    var c := ComparisonSpan(t, n, rt, tail);
    if rt.priority.Some? {
      PrioritySpan(t, c, rt.priority.value, tail);
    } else {
      NoPrioritySpan(t, c, tail);
    }
    MatchRuleSteps(t, (rt.link, rt.action, a), (rt.node, n), (rt.comparator, rt.threshold, c));
  }

  // ---------------------------------------------------------------------
  // Soundness: every matched line starts with a spelling
  // ---------------------------------------------------------------------

  lemma Cut(t: string, i: nat, j: nat)
    requires i <= j <= |t|
    ensures t[i..] == t[i..j] + t[j..]
  {
  }

  lemma Cut4(t: string, i: nat, a: nat, b: nat, c: nat, d: nat)
    requires i <= a <= b <= c <= d <= |t|
    ensures t[i..] == t[i..a] + (t[a..b] + (t[b..c] + (t[c..d] + t[d..])))
  {
    Cut(t, c, d);
    Cut(t, b, c);
    Cut(t, a, b);
    Cut(t, i, a);
  }

  lemma GapOf(t: string, i: nat, a: nat)
    requires i <= |t| && Plus(t, i, IsSpace) == Some(a)
    ensures i < a <= |t| && IsGap(t[i..a])
  {
    assert forall k :: 0 <= k < a - i ==> t[i..a][k] == t[i + k];
  }

  lemma WordOf(t: string, i: nat, a: nat)
    requires i <= |t| && Plus(t, i, NotSpace) == Some(a)
    ensures i < a <= |t| && IsWord(t[i..a])
  {
    assert forall k :: 0 <= k < a - i ==> t[i..a][k] == t[i + k];
  }

  lemma NumberOf(t: string, i: nat, a: nat)
    requires i <= |t| && Plus(t, i, IsNumberChar) == Some(a)
    ensures i < a <= |t| && IsNumberText(t[i..a])
  {
    assert forall k :: 0 <= k < a - i ==> t[i..a][k] == t[i + k];
  }

  /** The pieces of a matched `LINK <link> <action>`, at positions `0 <= a <= ... <= e`. */
  lemma ActionParts(t: string) returns (a: nat, b: nat, c: nat, d: nat, e: nat)
    requires MatchAction(t).Some?
    ensures a <= b <= c <= d <= e <= |t|
    ensures Spells(t[..a], "LINK") && IsGap(t[a..b]) && IsWord(t[b..c]) && IsGap(t[c..d])
    ensures Spells(t[d..e], "OPEN") || Spells(t[d..e], "CLOSED")
    ensures MatchAction(t).value == (t[b..c], t[d..e], e)
  {
    PatternKeywords();
    a := Keyword(t, 0, "LINK").value;
    b := Plus(t, a, IsSpace).value;
    c := Plus(t, b, NotSpace).value;
    d := Plus(t, c, IsSpace).value;
    e := Either(t, d, "OPEN", "CLOSED").value;
    assert t[..a] == t[0..0 + |"LINK"|];
    GapOf(t, a, b);
    WordOf(t, b, c);
    GapOf(t, c, d);
  }

  /** The pieces of a matched `IF NODE <node>` from `i`. */
  lemma NodeParts(t: string, i: nat) returns (f: nat, g: nat, h: nat, j: nat, k: nat, l: nat)
    requires i <= |t| && MatchNode(t, i).Some?
    ensures i <= f <= g <= h <= j <= k <= l <= |t|
    ensures IsGap(t[i..f]) && Spells(t[f..g], "IF") && IsGap(t[g..h])
    ensures Spells(t[h..j], "NODE") && IsGap(t[j..k]) && IsWord(t[k..l])
    ensures MatchNode(t, i).value == (t[k..l], l)
  {
    PatternKeywords();
    f := Plus(t, i, IsSpace).value;
    g := Keyword(t, f, "IF").value;
    h := Plus(t, g, IsSpace).value;
    j := Keyword(t, h, "NODE").value;
    k := Plus(t, j, IsSpace).value;
    l := Plus(t, k, NotSpace).value;
    GapOf(t, i, f);
    GapOf(t, g, h);
    GapOf(t, j, k);
    WordOf(t, k, l);
  }

  /** The pieces of a matched `<comparator> <threshold>` from `i`. */
  lemma ComparisonParts(t: string, i: nat) returns (a: nat, b: nat, c: nat, d: nat)
    requires i <= |t| && MatchComparison(t, i).Some?
    ensures i <= a <= b <= c <= d <= |t|
    ensures IsGap(t[i..a]) && IsGap(t[b..c]) && IsNumberText(t[c..d])
    ensures Spells(t[a..b], "BELOW") || Spells(t[a..b], "ABOVE")
    ensures MatchComparison(t, i).value == (t[a..b], t[c..d], d)
  {
    PatternKeywords();
    a := Plus(t, i, IsSpace).value;
    b := Either(t, a, "BELOW", "ABOVE").value;
    c := Plus(t, b, IsSpace).value;
    d := Plus(t, c, IsNumberChar).value;
    GapOf(t, i, a);
    GapOf(t, b, c);
    NumberOf(t, c, d);
  }

  /** The pieces of a matched priority clause from `i`. */
  lemma PriorityParts(t: string, i: nat) returns (q: PriorityText, d: nat)
    requires i <= |t| && PriorityClause(t, i).Some?
    ensures d <= |t| && WellSpelledPriority(q) && PriorityClause(t, i) == Some(q.digits)
    ensures t[i..] == q.gap + (q.keyword + (q.gap2 + (q.digits + t[d..])))
  {
    PatternKeywords();
    var a := Plus(t, i, IsSpace).value;
    var b := Keyword(t, a, "PRIORITY").value;
    var c := Plus(t, b, IsSpace).value;
    d := Plus(t, c, IsDigit).value;
    GapOf(t, i, a);
    GapOf(t, b, c);
    q := PriorityText(t[i..a], t[a..b], t[b..c], t[c..d]);
    Cut4(t, i, a, b, c, d);
  }

  lemma ComparisonFromParts(t: string, rt: RuleText, tail: string, l: nat, m: nat, n: nat, o: nat, p: nat)
    requires l <= m <= n <= o <= p <= |t|
    requires rt.gap6 == t[l..m] && rt.comparator == t[m..n] && rt.gap7 == t[n..o] && rt.threshold == t[o..p]
    requires t[p..] == PriorityLine(rt.priority, tail)
    ensures t[l..] == ComparisonLine(rt, tail)
  {
    Cut4(t, l, m, n, o, p);
  }

  lemma NodeFromParts(t: string, rt: RuleText, tail: string, e: nat, f: nat, g: nat, h: nat, j: nat, k: nat, l: nat)
    requires e <= f <= g <= h <= j <= k <= l <= |t|
    requires rt.gap3 == t[e..f] && rt.ifKw == t[f..g] && rt.gap4 == t[g..h] && rt.nodeKw == t[h..j]
    requires rt.gap5 == t[j..k] && rt.node == t[k..l]
    requires t[l..] == ComparisonLine(rt, tail)
    ensures t[e..] == NodeLine(rt, tail)
  {
    Cut(t, k, l);
    Cut(t, j, k);
    Cut4(t, e, f, g, h, j);
  }

  lemma SpelledFromParts(t: string, rt: RuleText, tail: string, a: nat, b: nat, c: nat, d: nat, e: nat)
    requires a <= b <= c <= d <= e <= |t|
    requires rt.linkKw == t[..a] && rt.gap1 == t[a..b] && rt.link == t[b..c] && rt.gap2 == t[c..d]
    requires rt.action == t[d..e]
    requires t[e..] == NodeLine(rt, tail)
    ensures t == Spelled(rt, tail)
  {
    Cut(t, d, e);
    Cut4(t, 0, a, b, c, d);
    assert t[0..] == t && t[0..a] == t[..a];
  }

  /** The three parts of a matched line and the groups built from them. */
  lemma RuleParts(t: string) returns (e: nat, l: nat, p: nat)
    requires MatchRule(t).Some?
    ensures MatchAction(t).Some? && e == MatchAction(t).value.2 && e <= |t|
    ensures MatchNode(t, e).Some? && l == MatchNode(t, e).value.1 && l <= |t|
    ensures MatchComparison(t, l).Some? && p == MatchComparison(t, l).value.2 && p <= |t|
    ensures MatchRule(t).value == Captures(MatchAction(t).value.0, MatchAction(t).value.1,
      MatchNode(t, e).value.0, MatchComparison(t, l).value.0, MatchComparison(t, l).value.1,
      PriorityClause(t, p))
  {
    e := MatchAction(t).value.2;
    l := MatchNode(t, e).value.1;
    p := MatchComparison(t, l).value.2;
  }

  /**
   * No false positives in the matcher: a line it accepts is a spelling of
   * the grammar followed by some tail, and the groups are the items of
   * that spelling.
   */
  lemma MatchedLineIsSpelled(t: string) returns (rt: RuleText, tail: string)
    requires MatchRule(t).Some?
    ensures WellSpelled(rt) && t == Spelled(rt, tail)
    ensures MatchRule(t) == Some(Captured(rt))
  {
    var e, l, p := RuleParts(t);
    var a, b, c, d, e' := ActionParts(t);
    var f, g, h, j, k, l' := NodeParts(t, e);
    var m, n, o, p' := ComparisonParts(t, l);
    var pr: Option<PriorityText>;
    if PriorityClause(t, p).Some? {
      var q, z := PriorityParts(t, p);
      pr, tail := Some(q), t[z..];
    } else {
      pr, tail := None, t[p..];
    }
    assert t[p..] == PriorityLine(pr, tail);
    rt := RuleText(t[..a], t[a..b], t[b..c], t[c..d], t[d..e], t[e..f], t[f..g], t[g..h], t[h..j],
                   t[j..k], t[k..l], t[l..m], t[m..n], t[n..o], t[o..p], pr);
    ComparisonFromParts(t, rt, tail, l, m, n, o, p);
    NodeFromParts(t, rt, tail, e, f, g, h, j, k, l);
    SpelledFromParts(t, rt, tail, a, b, c, d, e);
  }
}
