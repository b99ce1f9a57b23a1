/**
 * The `[CONTROLS]` reader of `physical/controls_parser.py`.
 *
 * It scans the lines of an EPANET INP document, enters the `[CONTROLS]`
 * section, stops at the next section header, and turns every line of the form
 *   LINK <id> OPEN|CLOSED IF NODE <id> BELOW|ABOVE <number> [PRIORITY <int>]
 * into a `ControlRule`, numbering the rules it produces. The regular
 * expression of the source is written out as a token matcher; Python's
 * `float` on the threshold text is the parameter `toFloat`, whose `None`
 * stands for the `ValueError` that aborts the whole parse.
 */
module ControlsParser {
  import opened Wrappers
  import opened Text

  datatype ControlRule = ControlRule(
    linkId: string,
    nodeId: string,
    comparator: string,
    action: string,
    threshold: real,
    priority: int,
    ruleIndex: int)

  datatype ParseError = InvalidThreshold(text: string)

  /** The groups of one successful match, as the regular expression captures them. */
  datatype Captures = Captures(
    link: string,
    action: string,
    node: string,
    comparator: string,
    threshold: string,
    priority: Option<string>)

  // ---------------------------------------------------------------------
  // The line matcher: `re.match` of the source's pattern, `re.IGNORECASE`.
  // ---------------------------------------------------------------------

  /** The end of the longest run of characters satisfying `p` that starts at `i`. */
  function Run(t: string, i: nat, p: char -> bool): (j: nat)
    requires i <= |t|
    ensures i <= j <= |t|
    ensures forall k :: i <= k < j ==> p(t[k])
    ensures j == |t| || !p(t[j])
    decreases |t| - i
  {
    if i < |t| && p(t[i]) then Run(t, i + 1, p) else i
  }

  predicate NotSpace(c: char) {
    !IsSpace(c)
  }

  /** The character class `[0-9eE\.\+\-]` of the threshold. */
  predicate IsNumberChar(c: char) {
    IsDigit(c) || c == 'e' || c == 'E' || c == '.' || c == '+' || c == '-'
  }

  /**
   * A non-empty greedy run, `x+`. Every item of the pattern that follows a
   * run can only start with a character outside the run's class, so the
   * greedy run is the only one a backtracking matcher can use.
   */
  function Plus(t: string, i: nat, p: char -> bool): (r: Option<nat>)
    requires i <= |t|
    ensures r.Some? ==> i < r.value <= |t| && Run(t, i, p) == r.value
    ensures r.None? ==> Run(t, i, p) == i
  {
    var j := Run(t, i, p);
    if j == i then None else Some(j)
  }

  /** A case-insensitive keyword at position `i`. */
  function Keyword(t: string, i: nat, kw: string): (r: Option<nat>)
    requires i <= |t|
    ensures r.Some? <==> i + |kw| <= |t| && MatchesKeyword(t[i..i + |kw|], kw)
    ensures r.Some? ==> r.value == i + |kw|
  {
    if i + |kw| <= |t| && MatchesKeyword(t[i..i + |kw|], kw) then Some(i + |kw|) else None
  }

  /**
   * The alternation `(a|b)`. The two keywords of each alternation in the
   * pattern differ in their first letter, so at most one of them matches.
   */
  function Either(t: string, i: nat, a: string, b: string): (r: Option<nat>)
    requires i <= |t|
    ensures r.Some? ==> (r.value <= |t| &&
      ((r.value == i + |a| && MatchesKeyword(t[i..r.value], a)) ||
       (r.value == i + |b| && MatchesKeyword(t[i..r.value], b))))
  {
    match Keyword(t, i, a)
    case Some(j) => Some(j)
    case None => Keyword(t, i, b)
  }

  predicate IsWord(w: string) {
    |w| > 0 && forall k :: 0 <= k < |w| ==> !IsSpace(w[k])
  }

  predicate IsDigits(w: string) {
    forall k :: 0 <= k < |w| ==> IsDigit(w[k])
  }

  /** The optional `(?:\s+PRIORITY\s+([0-9]+))?` after position `i`. */
  function PriorityClause(t: string, i: nat): (r: Option<string>)
    requires i <= |t|
    ensures r.Some? ==> |r.value| > 0 && IsDigits(r.value)
  {
    var a :- Plus(t, i, IsSpace);
    var b :- Keyword(t, a, "PRIORITY");
    var c :- Plus(t, b, IsSpace);
    var d :- Plus(t, c, IsDigit);
    Some(t[c..d])
  }

  /** `LINK\s+(\S+)\s+(OPEN|CLOSED)` at the start of `t`: link, action and the end position. */
  function MatchAction(t: string): (r: Option<(string, string, nat)>)
    ensures r.Some? ==> r.value.2 <= |t|
    ensures r.Some? ==> |t| >= 4 && MatchesLetter(t[0], 'L')
    ensures r.Some? ==> IsWord(r.value.0)
    ensures r.Some? ==> (MatchesKeyword(r.value.1, "OPEN") || MatchesKeyword(r.value.1, "CLOSED"))
  {
    var a :- Keyword(t, 0, "LINK");
    assert MatchesLetter(t[0..4][0], "LINK"[0]);
    var b :- Plus(t, a, IsSpace);
    var c :- Plus(t, b, NotSpace);
    var d :- Plus(t, c, IsSpace);
    var e :- Either(t, d, "OPEN", "CLOSED");
    Some((t[b..c], t[d..e], e))
  }

  /** `\s+IF\s+NODE\s+(\S+)` from position `i`: the node and the end position. */
  function MatchNode(t: string, i: nat): (r: Option<(string, nat)>)
    requires i <= |t|
    ensures r.Some? ==> i < r.value.1 <= |t|
    ensures r.Some? ==> IsWord(r.value.0)
  {
    var f :- Plus(t, i, IsSpace);
    var g :- Keyword(t, f, "IF");
    var h :- Plus(t, g, IsSpace);
    var j :- Keyword(t, h, "NODE");
    var k :- Plus(t, j, IsSpace);
    var l :- Plus(t, k, NotSpace);
    Some((t[k..l], l))
  }

  /** `\s+(BELOW|ABOVE)\s+([0-9eE\.\+\-]+)` from position `i`: comparator, threshold text, end. */
  function MatchComparison(t: string, i: nat): (r: Option<(string, string, nat)>)
    requires i <= |t|
    ensures r.Some? ==> i < r.value.2 <= |t|
    ensures r.Some? ==> (MatchesKeyword(r.value.0, "BELOW") || MatchesKeyword(r.value.0, "ABOVE"))
    ensures r.Some? ==> (|r.value.1| > 0 && forall k :: 0 <= k < |r.value.1| ==> IsNumberChar(r.value.1[k]))
  {
    var a :- Plus(t, i, IsSpace);
    var b :- Either(t, a, "BELOW", "ABOVE");
    var c :- Plus(t, b, IsSpace);
    var d :- Plus(t, c, IsNumberChar);
    Some((t[a..b], t[c..d], d))
  }

  /**
   * What a successful match guarantees of its groups: link and node are
   * non-empty runs of non-whitespace, action and comparator match their
   * keywords case-insensitively, the threshold is a non-empty run of number
   * characters and the priority, when present, a non-empty run of digits.
   */
  predicate Matched(c: Captures) {
    IsWord(c.link) && IsWord(c.node) &&
    (MatchesKeyword(c.action, "OPEN") || MatchesKeyword(c.action, "CLOSED")) &&
    (MatchesKeyword(c.comparator, "BELOW") || MatchesKeyword(c.comparator, "ABOVE")) &&
    |c.threshold| > 0 && (forall k :: 0 <= k < |c.threshold| ==> IsNumberChar(c.threshold[k])) &&
    (c.priority.Some? ==> |c.priority.value| > 0 && IsDigits(c.priority.value))
  }

  /**
   * `pattern.match(t)`: the pattern anchored at the start of `t` only, so
   * anything after the last matched item is ignored.
   */
  function MatchRule(t: string): (r: Option<Captures>)
    ensures r.Some? ==> Matched(r.value)
    ensures r.Some? ==> t != [] && (t[0] == 'L' || t[0] == 'l')
  {
    var act :- MatchAction(t);
    var nd :- MatchNode(t, act.2);
    var cmp :- MatchComparison(t, nd.1);
    Some(Captures(act.0, act.1, nd.0, cmp.0, cmp.1, PriorityClause(t, cmp.2)))
  }

  // ---------------------------------------------------------------------
  // Rules
  // ---------------------------------------------------------------------

  /** What the parser promises of every rule it returns. */
  predicate IsCanonical(r: ControlRule) {
    (r.comparator == "BELOW" || r.comparator == "ABOVE") &&
    (r.action == "OPEN" || r.action == "CLOSED") &&
    r.priority >= 0
  }

  /** The `ControlRule(...)` built from a match, with upper-cased keywords. */
  function MakeRule(c: Captures, threshold: real, index: int): (r: ControlRule)
    requires Matched(c)
    ensures IsCanonical(r)
    ensures r.linkId == c.link && r.nodeId == c.node && r.threshold == threshold && r.ruleIndex == index
    ensures c.priority.None? ==> r.priority == 0
    ensures c.priority.Some? ==> r.priority == DigitsValue(c.priority.value)
    ensures MatchesKeyword(c.comparator, "BELOW") <==> r.comparator == "BELOW"
    ensures MatchesKeyword(c.action, "OPEN") <==> r.action == "OPEN"
  {
    assert Upper(c.action) == (if MatchesKeyword(c.action, "OPEN") then "OPEN" else "CLOSED") by {
      if MatchesKeyword(c.action, "OPEN") { UpperOfKeywordMatch(c.action, "OPEN"); }
      else { UpperOfKeywordMatch(c.action, "CLOSED"); }
    }
    assert Upper(c.comparator) == (if MatchesKeyword(c.comparator, "BELOW") then "BELOW" else "ABOVE") by {
      if MatchesKeyword(c.comparator, "BELOW") { UpperOfKeywordMatch(c.comparator, "BELOW"); }
      else { UpperOfKeywordMatch(c.comparator, "ABOVE"); }
    }
    ControlRule(
      c.link, c.node, Upper(c.comparator), Upper(c.action), threshold,
      if c.priority.Some? then DigitsValue(c.priority.value) else 0,
      index)
  }

  // ---------------------------------------------------------------------
  // The line scan
  // ---------------------------------------------------------------------

  const SectionHeader := "[CONTROLS]"

  /** A blank line or a `;` comment, after stripping. */
  predicate IsSkipped(t: string) {
    t == [] || t[0] == ';'
  }

  /** `t.upper().startswith("[CONTROLS]")`. */
  predicate IsHeader(t: string) {
    |t| >= |SectionHeader| && Upper(t[..|SectionHeader|]) == SectionHeader
  }

  /** A stripped line that ends the section once inside it. */
  predicate IsNextSection(t: string) {
    t != [] && t[0] == '[' && !IsHeader(t)
  }

  /**
   * What the loop body learns from one line, before looking at the section
   * flag: the tests come in the source's order (skip, header, section
   * bracket, pattern), so a line is of exactly one kind.
   */
  datatype LineKind = Skip | Header | Bracket | NoMatch | RuleLine(captures: RuleCaptures)

  /** The groups of a line the pattern matched. */
  type RuleCaptures = c: Captures | Matched(c) witness Captures("P", "OPEN", "T", "BELOW", "1", None)

  function Classify(line: string): (k: LineKind)
    ensures k.Skip? <==> IsSkipped(Strip(line))
    ensures k.Header? <==> !IsSkipped(Strip(line)) && IsHeader(Strip(line))
    ensures k.Bracket? <==> IsNextSection(Strip(line))
    ensures k.RuleLine? ==> MatchRule(Strip(line)) == Some(k.captures)
    ensures MatchRule(Strip(line)).Some? ==> k == RuleLine(MatchRule(Strip(line)).value)
  {
    var t := Strip(line);
    assert MatchRule(t).Some? ==> !IsHeader(t) by {
      if MatchRule(t).Some? && IsHeader(t) {
        HeaderStartsWithBracket(t);
      }
    }
    if IsSkipped(t) then Skip
    else if IsHeader(t) then Header
    else if t[0] == '[' then Bracket
    else
      match MatchRule(t)
      case None => NoMatch
      case Some(c) => RuleLine(c)
  }

  /** `f` applied to every element of `s`. */
  function Map<A, B>(f: A -> B, s: seq<A>): (r: seq<B>)
    ensures |r| == |s|
    ensures forall k :: 0 <= k < |s| ==> r[k] == f(s[k])
  {
    seq(|s|, k requires 0 <= k < |s| => f(s[k]))
  }

  /** Mapping commutes with cutting a sequence at `j` and with removing its element `j`. */
  lemma MapSplit<A, B>(f: A -> B, s: seq<A>, j: nat)
    requires j < |s|
    ensures Map(f, s) == Map(f, s[..j]) + [f(s[j])] + Map(f, s[j + 1..])
    ensures Map(f, s[..j + 1]) == Map(f, s[..j]) + [f(s[j])]
    ensures Map(f, s[..j] + s[j + 1..]) == Map(f, s[..j]) + Map(f, s[j + 1..])
  {
    var all, pre, post := Map(f, s), Map(f, s[..j]), Map(f, s[j + 1..]);
    assert forall k :: 0 <= k < j ==> pre[k] == all[k];
    assert forall k :: 0 <= k < |post| ==> post[k] == all[j + 1 + k];
    assert all == pre + [all[j]] + post;
    var cut := s[..j] + s[j + 1..];
    assert forall k :: 0 <= k < |cut| ==> cut[k] == if k < j then s[k] else s[k + 1];
  }

  /** The kind of every line. */
  function Kinds(lines: seq<string>): (r: seq<LineKind>)
    ensures |r| == |lines|
  {
    Map(Classify, lines)
  }

  predicate HasHeader(kinds: seq<LineKind>) {
    exists k :: 0 <= k < |kinds| && kinds[k].Header?
  }

  function Prepend(rules: seq<ControlRule>, r: Result<seq<ControlRule>, ParseError>): Result<seq<ControlRule>, ParseError> {
    match r
    case Ok(rest) => Ok(rules + rest)
    case Err(e) => Err(e)
  }

  /**
   * The rules the loop of `parse_controls_from_inp` produces from lines of
   * the given kinds, starting with the section flag `inControls` and the
   * counter `index`. Every returned rule is canonical and they are numbered
   * `index`, `index + 1`, ... in order; there are never more rules than lines.
   */
  function Scan(kinds: seq<LineKind>, inControls: bool, index: int, toFloat: string -> Option<real>)
    : (r: Result<seq<ControlRule>, ParseError>)
    ensures r.Ok? ==> |r.value| <= |kinds|
    ensures r.Ok? ==> forall k :: 0 <= k < |r.value| ==>
      r.value[k].ruleIndex == index + k && IsCanonical(r.value[k])
    decreases |kinds|
  {
    if kinds == [] then Ok([])
    else
      match kinds[0]
      case Skip => Scan(kinds[1..], inControls, index, toFloat)
      case Header => Scan(kinds[1..], true, index, toFloat)
      case Bracket => if inControls then Ok([]) else Scan(kinds[1..], false, index, toFloat)
      case NoMatch => Scan(kinds[1..], inControls, index, toFloat)
      case RuleLine(c) =>
        if !inControls then Scan(kinds[1..], false, index, toFloat)
        else
          match toFloat(c.threshold)
          case None => Err(InvalidThreshold(c.threshold))
          case Some(x) => Prepend([MakeRule(c, x, index)], Scan(kinds[1..], true, index + 1, toFloat))
  }

  /** The specification of the whole parse: a scan from outside any section, counter at 0. */
  function ParseControls(lines: seq<string>, toFloat: string -> Option<real>): (r: Result<seq<ControlRule>, ParseError>)
    ensures r.Ok? ==> |r.value| <= |lines|
    ensures r.Ok? ==> forall k :: 0 <= k < |r.value| ==> r.value[k].ruleIndex == k && IsCanonical(r.value[k])
  {
    Scan(Kinds(lines), false, 0, toFloat)
  }

  lemma PrependNothing(r: Result<seq<ControlRule>, ParseError>)
    ensures Prepend([], r) == r
  {
    if r.Ok? {
      assert [] + r.value == r.value;
    }
  }

  lemma PrependTwice(a: seq<ControlRule>, b: seq<ControlRule>, r: Result<seq<ControlRule>, ParseError>)
    ensures Prepend(a, Prepend(b, r)) == Prepend(a + b, r)
  {
    if r.Ok? {
      assert a + (b + r.value) == (a + b) + r.value;
    }
  }

  /**
   * `parse_controls_from_inp` on the lines of the document. The loop keeps
   * the rules found so far in front of what the scan of the remaining lines
   * yields, so the result is `ParseControls(lines, toFloat)`.
   */
  method ParseControlsFromInp(lines: seq<string>, toFloat: string -> Option<real>)
    returns (r: Result<seq<ControlRule>, ParseError>)
    ensures r == ParseControls(lines, toFloat)
    ensures r.Ok? ==> forall k :: 0 <= k < |r.value| ==> r.value[k].ruleIndex == k && IsCanonical(r.value[k])
  {
    ghost var kinds := Kinds(lines);
    var controls: seq<ControlRule> := [];
    var inControls := false;
    var ruleIndex := 0;
    var i := 0;
    assert kinds[0..] == kinds;
    PrependNothing(Scan(kinds, false, 0, toFloat));
    while i < |lines|
      invariant 0 <= i <= |lines|
      invariant ruleIndex == |controls|
      invariant ParseControls(lines, toFloat) == Prepend(controls, Scan(kinds[i..], inControls, ruleIndex, toFloat))
    {
      ghost var rest := kinds[i..];
      assert rest[0] == Classify(lines[i]) && rest[1..] == kinds[i + 1..];
      var line := Strip(lines[i]);
      if IsSkipped(line) {
        // a blank or comment line changes nothing
      } else if IsHeader(line) {
        inControls := true;
      } else if inControls && line[0] == '[' {
        assert controls + [] == controls;
        break;
      } else if inControls {
        var m := MatchRule(line);
        if m.Some? {
          var x := toFloat(m.value.threshold);
          if x.None? {
            return Err(InvalidThreshold(m.value.threshold));
          }
          var rule := MakeRule(m.value, x.value, ruleIndex);
          PrependTwice(controls, [rule], Scan(kinds[i + 1..], true, ruleIndex + 1, toFloat));
          controls := controls + [rule];
          ruleIndex := ruleIndex + 1;
        }
      }
      i := i + 1;
    }
    if i == |lines| {
      assert kinds[i..] == [];
      assert controls + [] == controls;
    }
    r := Ok(controls);
  }

  // ---------------------------------------------------------------------
  // Properties of the scan
  // ---------------------------------------------------------------------

  /** Classifying a split document is splitting the classification. */
  lemma KindsSplit(lines: seq<string>, j: nat)
    requires j < |lines|
    ensures Kinds(lines) == Kinds(lines[..j]) + [Classify(lines[j])] + Kinds(lines[j + 1..])
    ensures Kinds(lines[..j + 1]) == Kinds(lines[..j]) + [Classify(lines[j])]
    ensures Kinds(lines[..j] + lines[j + 1..]) == Kinds(lines[..j]) + Kinds(lines[j + 1..])
  {
    MapSplit(Classify, lines, j);
  }

  predicate NoHeader(kinds: seq<LineKind>) {
    forall k :: 0 <= k < |kinds| ==> !kinds[k].Header?
  }

  /**
   * Lines before the first `[CONTROLS]` header never produce a rule: they
   * may be dropped without changing the result.
   */
  lemma {:induction false} PreambleIgnored(pre: seq<LineKind>, rest: seq<LineKind>, index: int, toFloat: string -> Option<real>)
    requires NoHeader(pre)
    ensures Scan(pre + rest, false, index, toFloat) == Scan(rest, false, index, toFloat)
  {
    if pre == [] {
      assert pre + rest == rest;
    } else {
      assert (pre + rest)[0] == pre[0] && (pre + rest)[1..] == pre[1..] + rest;
      assert !pre[0].Header?;
      PreambleIgnored(pre[1..], rest, index, toFloat);
    }
  }

  /** A document without a `[CONTROLS]` header yields no rule. */
  lemma NoSectionNoRules(lines: seq<string>, toFloat: string -> Option<real>)
    requires forall k :: 0 <= k < |lines| ==> !IsHeader(Strip(lines[k]))
    ensures ParseControls(lines, toFloat) == Ok([])
  {
    var kinds := Kinds(lines);
    assert NoHeader(kinds) by {
      forall k | 0 <= k < |kinds| ensures !kinds[k].Header? {
        assert kinds[k] == Classify(lines[k]);
      }
    }
    PreambleIgnored(kinds, [], 0, toFloat);
    assert kinds + [] == kinds;
  }

  lemma HeaderStartsWithBracket(t: string)
    requires IsHeader(t)
    ensures t != [] && t[0] == '[' && !IsSkipped(t)
  {
    assert Upper(t[..|SectionHeader|])[0] == UpperChar(t[0]);
  }

  /** A line whose stripped text starts with `[CONTROLS]` is classified as a header. */
  lemma HeaderLine(line: string)
    requires IsHeader(Strip(line))
    ensures Classify(line) == Header
  {
    HeaderStartsWithBracket(Strip(line));
  }

  lemma HasHeaderTail(a: seq<LineKind>)
    requires HasHeader(a) && !a[0].Header?
    ensures HasHeader(a[1..])
  {
    var k :| 0 <= k < |a| && a[k].Header?;
    assert a[1..][k - 1] == a[k];
  }

  /** Within the section, a `[` line ends the scan: what follows it is never read. */
  lemma {:induction false} ScanEndsAtBracket(a: seq<LineKind>, tail: seq<LineKind>,
                                            inControls: bool, index: int, toFloat: string -> Option<real>)
    requires inControls || HasHeader(a)
    ensures Scan(a + [Bracket] + tail, inControls, index, toFloat) == Scan(a + [Bracket], inControls, index, toFloat)
  {
    if a == [] {
      assert (a + [Bracket] + tail)[0] == Bracket && (a + [Bracket])[0] == Bracket;
    } else {
      assert (a + [Bracket] + tail)[0] == a[0] && (a + [Bracket] + tail)[1..] == a[1..] + [Bracket] + tail;
      assert (a + [Bracket])[0] == a[0] && (a + [Bracket])[1..] == a[1..] + [Bracket];
      if !inControls && !a[0].Header? {
        HasHeaderTail(a);
      }
      ScanEndsAtBracket(a[1..], tail, inControls || a[0].Header?, index, toFloat);
      ScanEndsAtBracket(a[1..], tail, true, index + 1, toFloat);
    }
  }

  /** Within the section, a repeated header is inert. */
  lemma {:induction false} ScanRepeatedHeader(a: seq<LineKind>, b: seq<LineKind>,
                                             inControls: bool, index: int, toFloat: string -> Option<real>)
    requires inControls || HasHeader(a)
    ensures Scan(a + [Header] + b, inControls, index, toFloat) == Scan(a + b, inControls, index, toFloat)
  {
    if a == [] {
      assert (a + [Header] + b)[0] == Header && (a + [Header] + b)[1..] == b && a + b == b;
    } else {
      assert (a + [Header] + b)[0] == a[0] && (a + [Header] + b)[1..] == a[1..] + [Header] + b;
      assert (a + b)[0] == a[0] && (a + b)[1..] == a[1..] + b;
      if !inControls && !a[0].Header? {
        HasHeaderTail(a);
      }
      ScanRepeatedHeader(a[1..], b, inControls || a[0].Header?, index, toFloat);
      ScanRepeatedHeader(a[1..], b, true, index + 1, toFloat);
    }
  }

  /** A skipped line is inert anywhere. */
  lemma {:induction false} ScanSkippedLine(a: seq<LineKind>, b: seq<LineKind>,
                                          inControls: bool, index: int, toFloat: string -> Option<real>)
    ensures Scan(a + [Skip] + b, inControls, index, toFloat) == Scan(a + b, inControls, index, toFloat)
  {
    if a == [] {
      assert (a + [Skip] + b)[0] == Skip && (a + [Skip] + b)[1..] == b && a + b == b;
    } else {
      assert (a + [Skip] + b)[0] == a[0] && (a + [Skip] + b)[1..] == a[1..] + [Skip] + b;
      assert (a + b)[0] == a[0] && (a + b)[1..] == a[1..] + b;
      ScanSkippedLine(a[1..], b, inControls || a[0].Header?, index, toFloat);
      ScanSkippedLine(a[1..], b, true, index + 1, toFloat);
    }
  }

  lemma HeaderBefore(lines: seq<string>, h: nat, j: nat)
    requires h < j <= |lines| && IsHeader(Strip(lines[h]))
    ensures HasHeader(Kinds(lines[..j]))
  {
    HeaderLine(lines[h]);
    assert Kinds(lines[..j])[h] == Classify(lines[h]);
  }

  /**
   * Once a `[CONTROLS]` header has been read, the first later line that
   * starts with `[` and is not a header ends the parse: the document may be
   * cut after it without changing the result.
   */
  lemma StopsAtNextSection(lines: seq<string>, h: nat, j: nat, toFloat: string -> Option<real>)
    requires h < j < |lines|
    requires IsHeader(Strip(lines[h])) && IsNextSection(Strip(lines[j]))
    ensures ParseControls(lines, toFloat) == ParseControls(lines[..j + 1], toFloat)
  {
    KindsSplit(lines, j);
    HeaderBefore(lines, h, j);
    ScanEndsAtBracket(Kinds(lines[..j]), Kinds(lines[j + 1..]), false, 0, toFloat);
  }

  /** After a first header, a second `[CONTROLS]` header changes nothing. */
  lemma RepeatedHeaderIsInert(lines: seq<string>, h: nat, j: nat, toFloat: string -> Option<real>)
    requires h < j < |lines|
    requires IsHeader(Strip(lines[h])) && IsHeader(Strip(lines[j]))
    ensures ParseControls(lines, toFloat) == ParseControls(lines[..j] + lines[j + 1..], toFloat)
  {
    KindsSplit(lines, j);
    HeaderBefore(lines, h, j);
    HeaderLine(lines[j]);
    ScanRepeatedHeader(Kinds(lines[..j]), Kinds(lines[j + 1..]), false, 0, toFloat);
  }

  /** A blank or `;` line anywhere may be removed without changing the result. */
  lemma SkippedLineIsInert(lines: seq<string>, j: nat, toFloat: string -> Option<real>)
    requires j < |lines| && IsSkipped(Strip(lines[j]))
    ensures ParseControls(lines, toFloat) == ParseControls(lines[..j] + lines[j + 1..], toFloat)
  {
    KindsSplit(lines, j);
    ScanSkippedLine(Kinds(lines[..j]), Kinds(lines[j + 1..]), false, 0, toFloat);
  }

  /** There are never more rules than lines after the first header. */
  lemma RulesWithinSection(lines: seq<string>, h: nat, toFloat: string -> Option<real>)
    requires h < |lines| && IsHeader(Strip(lines[h]))
    requires forall k :: 0 <= k < h ==> !IsHeader(Strip(lines[k]))
    requires ParseControls(lines, toFloat).Ok?
    ensures |ParseControls(lines, toFloat).value| <= |lines| - h - 1
  {
    KindsSplit(lines, h);
    var pre := Kinds(lines[..h]);
    assert NoHeader(pre) by {
      forall k | 0 <= k < h ensures !pre[k].Header? {
        assert pre[k] == Classify(lines[k]);
      }
    }
    HeaderLine(lines[h]);
    var rest := [Header] + Kinds(lines[h + 1..]);
    assert Kinds(lines) == pre + rest;
    PreambleIgnored(pre, rest, 0, toFloat);
    assert rest[1..] == Kinds(lines[h + 1..]);
  }

  /** Line `line`, numbered `index`, is a rule line that gives `rule`. */
  predicate Produces(line: string, toFloat: string -> Option<real>, index: int, rule: ControlRule) {
    var m := MatchRule(Strip(line));
    m.Some? && toFloat(m.value.threshold).Some? &&
    rule == MakeRule(m.value, toFloat(m.value.threshold).value, index)
  }

  /** Kind `kind`, numbered `index`, is a rule line that gives `rule`. */
  predicate KindProduces(kind: LineKind, toFloat: string -> Option<real>, index: int, rule: ControlRule) {
    kind.RuleLine? && toFloat(kind.captures.threshold).Some? &&
    rule == MakeRule(kind.captures, toFloat(kind.captures.threshold).value, index)
  }

  function Shift(s: seq<nat>): (r: seq<nat>)
    ensures |r| == |s| && forall k :: 0 <= k < |s| ==> r[k] == s[k] + 1
  {
    seq(|s|, k requires 0 <= k < |s| => s[k] + 1)
  }

  lemma HeaderPrefixShift(kinds: seq<LineKind>, j: nat)
    requires j < |kinds| - 1
    requires kinds[0].Header? || HasHeader(kinds[1..][..j])
    ensures HasHeader(kinds[..j + 1])
  {
    if kinds[0].Header? {
      assert kinds[..j + 1][0] == kinds[0];
    } else {
      var k :| 0 <= k < j && kinds[1..][..j][k].Header?;
      assert kinds[..j + 1][k + 1] == kinds[1..][..j][k];
    }
  }

  /** The properties `ScanOrigins` promises of `origin`. */
  predicate OriginsOf(kinds: seq<LineKind>, inControls: bool, index: int, toFloat: string -> Option<real>,
                      rules: seq<ControlRule>, origin: seq<nat>)
  {
    |origin| == |rules| &&
    (forall k :: 0 <= k < |origin| ==>
      (origin[k] < |kinds| && KindProduces(kinds[origin[k]], toFloat, index + k, rules[k]))) &&
    (forall k :: 0 <= k < |origin| ==> inControls || HasHeader(kinds[..origin[k]])) &&
    Increasing(origin)
  }

  predicate Increasing(s: seq<nat>) {
    forall k, l :: 0 <= k < l < |s| ==> s[k] < s[l]
  }

  /** Shifting keeps a sequence increasing, and a leading 0 stays below the shifted rest. */
  lemma ShiftIncreasing(rest: seq<nat>)
    requires Increasing(rest)
    ensures Increasing(Shift(rest)) && Increasing([0] + Shift(rest))
  {
    var origin := [0] + Shift(rest);
    forall k, l | 0 <= k < l < |origin|
      ensures origin[k] < origin[l]
    {
      ConsAt(0, Shift(rest), l);
      if k > 0 {
        ConsAt(0, Shift(rest), k);
      }
    }
  }

  /** A rule line in the section puts its own rule in front, from line 0. */
  lemma OriginsOfRuleLine(kinds: seq<LineKind>, index: int, toFloat: string -> Option<real>,
                          tail: seq<ControlRule>, rest: seq<nat>)
    requires kinds != [] && kinds[0].RuleLine? && toFloat(kinds[0].captures.threshold).Some?
    requires OriginsOf(kinds[1..], true, index + 1, toFloat, tail, rest)
    ensures OriginsOf(kinds, true, index, toFloat,
                      [MakeRule(kinds[0].captures, toFloat(kinds[0].captures.threshold).value, index)] + tail,
                      [0] + Shift(rest))
  {
    OriginsCons(kinds, index, toFloat, MakeRule(kinds[0].captures, toFloat(kinds[0].captures.threshold).value, index), tail, rest);
  }

  lemma OriginsCons(kinds: seq<LineKind>, index: int, toFloat: string -> Option<real>,
                    first: ControlRule, tail: seq<ControlRule>, rest: seq<nat>)
    requires kinds != [] && KindProduces(kinds[0], toFloat, index, first)
    requires OriginsOf(kinds[1..], true, index + 1, toFloat, tail, rest)
    ensures OriginsOf(kinds, true, index, toFloat, [first] + tail, [0] + Shift(rest))
  {
    var rules := [first] + tail;
    var origin := [0] + Shift(rest);
    ShiftIncreasing(rest);
    forall k | 0 <= k < |origin|
      ensures origin[k] < |kinds| && KindProduces(kinds[origin[k]], toFloat, index + k, rules[k])
    {
      if k > 0 {
        ConsAt(first, tail, k);
        ConsAt(0, Shift(rest), k);
        assert kinds[origin[k]] == kinds[1..][rest[k - 1]];
      }
    }
  }

  /** Indexing past the head of `[x] + s`. */
  lemma ConsAt<T>(x: T, s: seq<T>, k: nat)
    requires 0 < k <= |s|
    ensures ([x] + s)[k] == s[k - 1]
  {
  }

  /** A line that yields no rule shifts the origins of the rest by one. */
  lemma OriginsOfOtherLine(kinds: seq<LineKind>, inControls: bool, index: int, toFloat: string -> Option<real>,
                           rules: seq<ControlRule>, rest: seq<nat>)
    requires kinds != []
    requires OriginsOf(kinds[1..], inControls || kinds[0].Header?, index, toFloat, rules, rest)
    ensures OriginsOf(kinds, inControls, index, toFloat, rules, Shift(rest))
  {
    var origin := Shift(rest);
    ShiftIncreasing(rest);
    forall k | 0 <= k < |origin|
      ensures origin[k] < |kinds| && KindProduces(kinds[origin[k]], toFloat, index + k, rules[k])
      ensures inControls || HasHeader(kinds[..origin[k]])
    {
      assert kinds[origin[k]] == kinds[1..][rest[k]];
      if !inControls {
        HeaderPrefixShift(kinds, rest[k]);
      }
    }
  }

  /** The scan-level origins of the rules. */
  lemma {:induction false} ScanOrigins(kinds: seq<LineKind>, inControls: bool, index: int, toFloat: string -> Option<real>)
    returns (origin: seq<nat>)
    requires Scan(kinds, inControls, index, toFloat).Ok?
    ensures OriginsOf(kinds, inControls, index, toFloat, Scan(kinds, inControls, index, toFloat).value, origin)
  {
    if kinds == [] {
      origin := [];
    } else if kinds[0].RuleLine? && inControls {
      var rest := ScanOrigins(kinds[1..], true, index + 1, toFloat);
      OriginsOfRuleLine(kinds, index, toFloat, Scan(kinds[1..], true, index + 1, toFloat).value, rest);
      origin := [0] + Shift(rest);
    } else if kinds[0].Bracket? && inControls {
      origin := [];
    } else {
      var next := inControls || kinds[0].Header?;
      var rest := ScanOrigins(kinds[1..], next, index, toFloat);
      OriginsOfOtherLine(kinds, inControls, index, toFloat, Scan(kinds[1..], next, index, toFloat).value, rest);
      origin := Shift(rest);
    }
  }

  /**
   * No rule comes from nowhere: the k-th rule is the one its own line
   * produces, that line lies after a `[CONTROLS]` header, and the lines of
   * successive rules come in document order.
   */
  lemma RuleOrigins(lines: seq<string>, toFloat: string -> Option<real>) returns (origin: seq<nat>)
    requires ParseControls(lines, toFloat).Ok?
    ensures |origin| == |ParseControls(lines, toFloat).value|
    ensures forall k :: 0 <= k < |origin| ==>
      (origin[k] < |lines| && Produces(lines[origin[k]], toFloat, k, ParseControls(lines, toFloat).value[k]))
    ensures forall k :: 0 <= k < |origin| ==> AfterHeader(lines, origin[k])
    ensures Increasing(origin)
  {
    origin := ScanOrigins(Kinds(lines), false, 0, toFloat);
    LineOrigins(lines, toFloat, ParseControls(lines, toFloat).value, origin);
  }

  /** Origins of rules among the kinds of the lines are origins among the lines themselves. */
  lemma LineOrigins(lines: seq<string>, toFloat: string -> Option<real>, rules: seq<ControlRule>, origin: seq<nat>)
    requires OriginsOf(Kinds(lines), false, 0, toFloat, rules, origin)
    ensures |origin| == |rules|
    ensures forall k :: 0 <= k < |origin| ==>
      (origin[k] < |lines| && Produces(lines[origin[k]], toFloat, k, rules[k]))
    ensures forall k :: 0 <= k < |origin| ==> AfterHeader(lines, origin[k])
    ensures Increasing(origin)
  {
    forall k | 0 <= k < |origin|
      ensures origin[k] < |lines| && Produces(lines[origin[k]], toFloat, k, rules[k])
      ensures AfterHeader(lines, origin[k])
    {
      LineOfKind(lines, origin[k], toFloat, k, rules[k]);
    }
  }

  /** Some line before line `j` is a `[CONTROLS]` header. */
  predicate AfterHeader(lines: seq<string>, j: nat)
    requires j <= |lines|
  {
    exists h :: 0 <= h < j && IsHeader(Strip(lines[h]))
  }

  /** Line `j` produces what its kind produces, and a header kind before it is a header line. */
  lemma LineOfKind(lines: seq<string>, j: nat, toFloat: string -> Option<real>, index: int, rule: ControlRule)
    requires j < |lines|
    requires KindProduces(Kinds(lines)[j], toFloat, index, rule)
    requires HasHeader(Kinds(lines)[..j])
    ensures Produces(lines[j], toFloat, index, rule)
    ensures AfterHeader(lines, j)
  {
    var kinds := Kinds(lines);
    assert kinds[j] == Classify(lines[j]);
    var h :| 0 <= h < j && kinds[..j][h].Header?;
    assert kinds[h] == Classify(lines[h]);
  }

  // ---------------------------------------------------------------------
  // Completeness of the scan: no in-section rule line is lost
  // ---------------------------------------------------------------------

  /**
   * Line `j` is read while the section is open: either the scan starts
   * inside it (`first == -1`) and no `[` line comes before `j`, or `first`
   * is the first header and no `[` line lies between it and `j`.
   */
  predicate ReachedInSection(kinds: seq<LineKind>, inControls: bool, first: int, j: nat)
    requires -1 <= first < j < |kinds|
  {
    (inControls <==> first == -1) &&
    (first >= 0 ==> kinds[first].Header? && forall l :: 0 <= l < first ==> !kinds[l].Header?) &&
    (forall l :: first < l < j ==> !kinds[l].Bracket?)
  }

  /** Moving past the first line keeps the later line reached in the section. */
  lemma ReachedShift(kinds: seq<LineKind>, inControls: bool, first: int, j: nat)
    requires -1 <= first < j < |kinds| && j > 0
    requires ReachedInSection(kinds, inControls, first, j)
    ensures inControls || kinds[0].Header? <==> first <= 0
    ensures inControls ==> !kinds[0].Bracket?
    ensures ReachedInSection(kinds[1..], first <= 0, if first <= 0 then -1 else first - 1, j - 1)
  {
    var tail := kinds[1..];
    assert forall l :: 0 <= l < |tail| ==> tail[l] == kinds[l + 1];
    if first > 0 {
      assert !kinds[0].Header?;
    }
  }

  /** A line that yields no rule leaves the scan of the rest, with the updated flag. */
  lemma ScanPasses(kinds: seq<LineKind>, inControls: bool, index: int, toFloat: string -> Option<real>)
    requires kinds != [] && !(inControls && (kinds[0].Bracket? || kinds[0].RuleLine?))
    ensures Scan(kinds, inControls, index, toFloat) == Scan(kinds[1..], inControls || kinds[0].Header?, index, toFloat)
  {
  }

  /** A rule line inside the section puts its rule in front of the scan of the rest. */
  lemma ScanTakes(kinds: seq<LineKind>, index: int, toFloat: string -> Option<real>)
    requires kinds != [] && kinds[0].RuleLine?
    requires Scan(kinds, true, index, toFloat).Ok?
    ensures Scan(kinds[1..], true, index + 1, toFloat).Ok?
    ensures |Scan(kinds, true, index, toFloat).value| == |Scan(kinds[1..], true, index + 1, toFloat).value| + 1
    ensures KindProduces(kinds[0], toFloat, index, Scan(kinds, true, index, toFloat).value[0])
    ensures Scan(kinds, true, index, toFloat).value[1..] == Scan(kinds[1..], true, index + 1, toFloat).value
  {
  }

  /** A rule line the scan reaches inside the section is turned into the rule numbered by the matches before it. */
  lemma {:induction false} ScanKeepsRuleLine(kinds: seq<LineKind>, inControls: bool, index: int,
                                            toFloat: string -> Option<real>, first: int, j: nat)
    returns (k: nat)
    requires -1 <= first < j < |kinds| && kinds[j].RuleLine?
    requires ReachedInSection(kinds, inControls, first, j)
    requires Scan(kinds, inControls, index, toFloat).Ok?
    ensures k < |Scan(kinds, inControls, index, toFloat).value|
    ensures KindProduces(kinds[j], toFloat, index + k, Scan(kinds, inControls, index, toFloat).value[k])
    decreases j
  {
    if j == 0 {
      ScanTakes(kinds, index, toFloat);
      k := 0;
    } else {
      ReachedShift(kinds, inControls, first, j);
      var first' := if first <= 0 then -1 else first - 1;
      if inControls && kinds[0].RuleLine? {
        ScanTakes(kinds, index, toFloat);
        var k' := ScanKeepsRuleLine(kinds[1..], true, index + 1, toFloat, first', j - 1);
        assert kinds[1..][j - 1] == kinds[j];
        assert Scan(kinds, true, index, toFloat).value[k' + 1] == Scan(kinds, true, index, toFloat).value[1..][k'];
        k := k' + 1;
      } else {
        ScanPasses(kinds, inControls, index, toFloat);
        k := ScanKeepsRuleLine(kinds[1..], first <= 0, index, toFloat, first', j - 1);
        assert kinds[1..][j - 1] == kinds[j];
      }
    }
  }

  /**
   * No false negatives: once the first `[CONTROLS]` header has been read, a
   * line that the pattern matches, with no `[` line between the header and
   * it, yields its rule, numbered by the rules produced before it.
   */
  lemma InSectionRuleIsParsed(lines: seq<string>, h: nat, j: nat, toFloat: string -> Option<real>)
    returns (k: nat)
    requires h < j < |lines|
    requires IsHeader(Strip(lines[h])) && forall l :: 0 <= l < h ==> !IsHeader(Strip(lines[l]))
    requires forall l :: h < l < j ==> !IsNextSection(Strip(lines[l]))
    requires MatchRule(Strip(lines[j])).Some?
    requires ParseControls(lines, toFloat).Ok?
    ensures k < |ParseControls(lines, toFloat).value|
    ensures Produces(lines[j], toFloat, k, ParseControls(lines, toFloat).value[k])
  {
    var kinds := Kinds(lines);
    HeaderLine(lines[h]);
    assert kinds[h] == Header;
    assert forall l :: 0 <= l < h ==> !kinds[l].Header? by {
      forall l | 0 <= l < h ensures !kinds[l].Header? {
        assert kinds[l] == Classify(lines[l]);
      }
    }
    assert forall l :: h < l < j ==> !kinds[l].Bracket? by {
      forall l | h < l < j ensures !kinds[l].Bracket? {
        assert kinds[l] == Classify(lines[l]);
      }
    }
    assert kinds[j] == Classify(lines[j]) == RuleLine(MatchRule(Strip(lines[j])).value);
    k := ScanKeepsRuleLine(kinds, false, 0, toFloat, h, j);
  }

  // ---------------------------------------------------------------------
  // When the parse fails
  // ---------------------------------------------------------------------

  /** A rule line whose threshold `float` rejects. */
  predicate Bad(kind: LineKind, toFloat: string -> Option<real>) {
    kind.RuleLine? && toFloat(kind.captures.threshold).None?
  }

  /** The first header, or -1 when the scan starts inside the section, seen from one line further on. */
  function Unshift(inControls: bool, kind: LineKind, first: int): int {
    if inControls then -1 else if kind.Header? then 0 else first + 1
  }

  /** Putting a line in front keeps a later line reached in the section, unless it ends the section. */
  lemma ReachedUnshift(kinds: seq<LineKind>, inControls: bool, first: int, j: nat)
    requires kinds != [] && -1 <= first < j < |kinds| - 1
    requires ReachedInSection(kinds[1..], inControls || kinds[0].Header?, first, j)
    requires !(inControls && kinds[0].Bracket?)
    ensures -1 <= Unshift(inControls, kinds[0], first) < j + 1
    ensures ReachedInSection(kinds, inControls, Unshift(inControls, kinds[0], first), j + 1)
  {
    var tail := kinds[1..];
    assert forall l :: 0 <= l < |tail| ==> tail[l] == kinds[l + 1];
  }

  /** A bad rule line the scan reaches inside the section makes the scan fail. */
  lemma {:induction false} ScanFailsAt(kinds: seq<LineKind>, inControls: bool, index: int,
                                       toFloat: string -> Option<real>, first: int, j: nat)
    requires -1 <= first < j < |kinds| && Bad(kinds[j], toFloat)
    requires ReachedInSection(kinds, inControls, first, j)
    ensures Scan(kinds, inControls, index, toFloat).Err?
    decreases j
  {
    if j > 0 {
      ReachedShift(kinds, inControls, first, j);
      var first' := if first <= 0 then -1 else first - 1;
      assert kinds[1..][j - 1] == kinds[j];
      if inControls && kinds[0].RuleLine? {
        if toFloat(kinds[0].captures.threshold).Some? {
          ScanFailsAt(kinds[1..], true, index + 1, toFloat, first', j - 1);
        }
      } else {
        ScanPasses(kinds, inControls, index, toFloat);
        ScanFailsAt(kinds[1..], first <= 0, index, toFloat, first', j - 1);
      }
    }
  }

  /**
   * A failing scan fails at a bad rule line it reaches inside the section,
   * the first such line, and the error names that line's threshold.
   */
  lemma {:induction false} ScanFailure(kinds: seq<LineKind>, inControls: bool, index: int,
                                       toFloat: string -> Option<real>)
    returns (first: int, j: nat)
    requires Scan(kinds, inControls, index, toFloat).Err?
    ensures -1 <= first < j < |kinds| && Bad(kinds[j], toFloat)
    ensures ReachedInSection(kinds, inControls, first, j)
    ensures forall l :: first < l < j ==> !Bad(kinds[l], toFloat)
    ensures Scan(kinds, inControls, index, toFloat).error == InvalidThreshold(kinds[j].captures.threshold)
    decreases |kinds|
  {
    var tail := kinds[1..];
    assert forall l :: 0 <= l < |tail| ==> tail[l] == kinds[l + 1];
    if inControls && kinds[0].RuleLine? && toFloat(kinds[0].captures.threshold).None? {
      first, j := -1, 0;
    } else {
      var index' := if inControls && kinds[0].RuleLine? then index + 1 else index;
      if !(inControls && kinds[0].RuleLine?) {
        ScanPasses(kinds, inControls, index, toFloat);
      }
      var f', j' := ScanFailure(tail, inControls || kinds[0].Header?, index', toFloat);
      ReachedUnshift(kinds, inControls, f', j');
      first, j := Unshift(inControls, kinds[0], f'), j' + 1;
    }
  }

  /** Line `j` lies in the section opened by the first header, line `h`, before any next section. */
  predicate InControlsSection(lines: seq<string>, h: nat, j: nat)
    requires h < j < |lines|
  {
    IsHeader(Strip(lines[h])) && (forall l :: 0 <= l < h ==> !IsHeader(Strip(lines[l]))) &&
    forall l :: h < l < j ==> !IsNextSection(Strip(lines[l]))
  }

  /** Line `l` matches the rule pattern but `float` rejects its threshold. */
  predicate BadLine(lines: seq<string>, toFloat: string -> Option<real>, l: nat)
    requires l < |lines|
  {
    MatchRule(Strip(lines[l])).Some? && toFloat(MatchRule(Strip(lines[l])).value.threshold).None?
  }

  /** What the classification of one line says in terms of its stripped text. */
  lemma KindOfLine(line: string, toFloat: string -> Option<real>)
    ensures Classify(line).Header? <==> IsHeader(Strip(line))
    ensures Classify(line).Bracket? <==> IsNextSection(Strip(line))
    ensures Bad(Classify(line), toFloat) <==>
            MatchRule(Strip(line)).Some? && toFloat(MatchRule(Strip(line)).value.threshold).None?
    ensures Classify(line).RuleLine? ==> Classify(line).captures == MatchRule(Strip(line)).value
  {
    if IsHeader(Strip(line)) {
      HeaderLine(line);
    }
  }

  /** The section condition on lines is the scan's condition on their kinds. */
  lemma SectionOfLines(lines: seq<string>, h: nat, j: nat, toFloat: string -> Option<real>)
    requires h < j < |lines|
    ensures InControlsSection(lines, h, j) <==> ReachedInSection(Kinds(lines), false, h, j)
  {
    var kinds := Kinds(lines);
    forall l | 0 <= l < |lines|
      ensures kinds[l].Header? <==> IsHeader(Strip(lines[l]))
      ensures kinds[l].Bracket? <==> IsNextSection(Strip(lines[l]))
    {
      assert kinds[l] == Classify(lines[l]);
      KindOfLine(lines[l], toFloat);
    }
  }

  /** A rule line with an unconvertible threshold inside the section makes the parse fail. */
  lemma ParseFailsAt(lines: seq<string>, toFloat: string -> Option<real>, h: nat, j: nat)
    requires h < j < |lines| && InControlsSection(lines, h, j) && BadLine(lines, toFloat, j)
    ensures ParseControls(lines, toFloat).Err?
  {
    var kinds := Kinds(lines);
    SectionOfLines(lines, h, j, toFloat);
    assert kinds[j] == Classify(lines[j]);
    KindOfLine(lines[j], toFloat);
    ScanFailsAt(kinds, false, 0, toFloat, h, j);
  }

  /**
   * A failed parse comes from such a line, the first one in the section, and
   * the error carries that line's threshold text.
   */
  lemma ParseFailure(lines: seq<string>, toFloat: string -> Option<real>) returns (h: nat, j: nat)
    requires ParseControls(lines, toFloat).Err?
    ensures h < j < |lines| && InControlsSection(lines, h, j) && BadLine(lines, toFloat, j)
    ensures forall l :: h < l < j ==> !BadLine(lines, toFloat, l)
    ensures ParseControls(lines, toFloat).error ==
            InvalidThreshold(MatchRule(Strip(lines[j])).value.threshold)
  {
    var kinds := Kinds(lines);
    var first;
    first, j := ScanFailure(kinds, false, 0, toFloat);
    h := first;
    SectionOfLines(lines, h, j, toFloat);
    assert kinds[j] == Classify(lines[j]);
    KindOfLine(lines[j], toFloat);
    forall l | h < l < j
      ensures !BadLine(lines, toFloat, l)
    {
      assert kinds[l] == Classify(lines[l]);
      KindOfLine(lines[l], toFloat);
    }
  }

  /** The parse fails exactly when a rule line in the section has a threshold `float` rejects. */
  lemma ParseFailsExactly(lines: seq<string>, toFloat: string -> Option<real>)
    ensures ParseControls(lines, toFloat).Err? <==>
            exists h: nat, j: nat :: h < j < |lines| && InControlsSection(lines, h, j) && BadLine(lines, toFloat, j)
  {
    if ParseControls(lines, toFloat).Err? {
      var h, j := ParseFailure(lines, toFloat);
    } else {
      forall h: nat, j: nat | h < j < |lines| && InControlsSection(lines, h, j)
        ensures !BadLine(lines, toFloat, j)
      {
        if BadLine(lines, toFloat, j) {
          ParseFailsAt(lines, toFloat, h, j);
        }
      }
    }
  }

  /** When every line that matches the rule pattern has a convertible threshold, the parse succeeds. */
  lemma ParseSucceeds(lines: seq<string>, toFloat: string -> Option<real>)
    requires forall l :: 0 <= l < |lines| && MatchRule(Strip(lines[l])).Some? ==>
               toFloat(MatchRule(Strip(lines[l])).value.threshold).Some?
    ensures ParseControls(lines, toFloat).Ok?
  {
    if ParseControls(lines, toFloat).Err? {
      var h, j := ParseFailure(lines, toFloat);
    }
  }
}
