/** Rule selection (src/background/ruleMatching.ts): which rules of which
    groups apply to a URL, in which order, and the target URL each yields. */
module RuleMatching {
  import opened Types
  import opened Strings

  // ---------------------------------------------------------------------
  // Candidates: enabled rules of enabled groups, in group-then-rule order
  // ---------------------------------------------------------------------

  /** `rules.filter(rule => rule.enabled)` */
  function EnabledRules(rules: seq<Rule>): (r: seq<Rule>)
    ensures forall x :: x in r <==> x in rules && x.enabled
    decreases |rules|
  {
    if rules == [] then []
    else (if rules[0].enabled then [rules[0]] else []) + EnabledRules(rules[1..])
  }

  /** `groups.filter(g => g.enabled).flatMap(g => g.rules.filter(r => r.enabled))`:
      a rule is a candidate exactly when it is enabled and sits in an enabled
      group, so a disabled group hides all its rules whatever their own flag. */
  function Candidates(groups: seq<RuleGroup>): (r: seq<Rule>)
    ensures forall x :: x in r <==> x.enabled && exists g :: g in groups && g.enabled && x in g.rules
    decreases |groups|
  {
    if groups == [] then []
    else
      var rest := Candidates(groups[1..]);
      assert forall g :: g in groups <==> g == groups[0] || g in groups[1..];
      (if groups[0].enabled then EnabledRules(groups[0].rules) else []) + rest
  }

  // ---------------------------------------------------------------------
  // Stable sort by ascending priority (`.sort((a, b) => a.priority - b.priority)`)
  // ---------------------------------------------------------------------

  predicate SortedByPriority(rules: seq<Rule>) {
    forall i, j :: 0 <= i < j < |rules| ==> rules[i].priority <= rules[j].priority
  }

  /** Puts `x` in front of the first rule whose priority is not below its own. */
  function Insert(x: Rule, rules: seq<Rule>): (r: seq<Rule>)
    ensures multiset(r) == multiset(rules) + multiset{x}
    ensures forall y :: y in r <==> y == x || y in rules
    decreases |rules|
  {
    if rules == [] || x.priority <= rules[0].priority then [x] + rules
    else
      assert rules == [rules[0]] + rules[1..];
      [rules[0]] + Insert(x, rules[1..])
  }

  /** Inserting into a priority-ordered list keeps it ordered. */
  lemma {:induction false} InsertSorted(x: Rule, rules: seq<Rule>)
    requires SortedByPriority(rules)
    ensures SortedByPriority(Insert(x, rules))
    decreases |rules|
  {
    if rules != [] && x.priority > rules[0].priority {
      InsertSorted(x, rules[1..]);
      var tail := Insert(x, rules[1..]);
      forall k | 0 <= k < |tail| ensures rules[0].priority <= tail[k].priority {
        assert tail[k] in tail;
        if tail[k] != x {
          var m :| 0 <= m < |rules| - 1 && rules[1..][m] == tail[k];
          assert rules[m + 1] == tail[k];
        }
      }
    }
  }

  /** A stable insertion sort: the result is ordered by priority and is a
      permutation of the input (stability: lemma `SortIsStable`). */
  function SortByPriority(rules: seq<Rule>): (r: seq<Rule>)
    ensures multiset(r) == multiset(rules)
    ensures SortedByPriority(r)
    decreases |rules|
  {
    if rules == [] then []
    else
      assert rules == [rules[0]] + rules[1..];
      InsertSorted(rules[0], SortByPriority(rules[1..]));
      Insert(rules[0], SortByPriority(rules[1..]))
  }

  /** The rules of priority `p`, in their order. */
  function AtPriority(rules: seq<Rule>, p: int): seq<Rule>
    decreases |rules|
  {
    if rules == [] then []
    else (if rules[0].priority == p then [rules[0]] else []) + AtPriority(rules[1..], p)
  }

  /** `Insert` puts `x` in front of every rule of its own priority, so each
      priority class keeps its order behind it. */
  lemma {:induction false} InsertAtPriority(x: Rule, rules: seq<Rule>, p: int)
    ensures AtPriority(Insert(x, rules), p)
         == (if x.priority == p then [x] else []) + AtPriority(rules, p)
    decreases |rules|
  {
    if rules == [] || x.priority <= rules[0].priority {
      assert ([x] + rules)[1..] == rules;
    } else {
      InsertAtPriority(x, rules[1..], p);
      var tail := Insert(x, rules[1..]);
      var head := if rules[0].priority == p then [rules[0]] else [];
      var mine := if x.priority == p then [x] else [];
      assert ([rules[0]] + tail)[1..] == tail;
      assert AtPriority([rules[0]] + tail, p) == head + AtPriority(tail, p);
      assert AtPriority(rules, p) == head + AtPriority(rules[1..], p);
      assert head == [] || mine == [];
      assert head + (mine + AtPriority(rules[1..], p)) == mine + (head + AtPriority(rules[1..], p));
    }
  }

  /** The sort is stable: for every priority, the rules of that priority keep
      their relative order. Together with the ensures of `SortByPriority`
      this fixes the result completely. */
  lemma {:induction false} SortIsStable(rules: seq<Rule>, p: int)
    ensures AtPriority(SortByPriority(rules), p) == AtPriority(rules, p)
    decreases |rules|
  {
    if rules != [] {
      SortIsStable(rules[1..], p);
      InsertAtPriority(rules[0], SortByPriority(rules[1..]), p);
    }
  }

  /** The list both entry points scan. */
  function OrderedCandidates(groups: seq<RuleGroup>): seq<Rule> {
    SortByPriority(Candidates(groups))
  }

  // ---------------------------------------------------------------------
  // Target URL: `targetUrl = targetUrl.replace(`$${i}`, match[i] || '')`
  // ---------------------------------------------------------------------

  /** The search string `$i` of pass i. */
  function Placeholder(i: nat): string {
    "$" + DecimalString(i)
  }

  /** `match[i] || ''` */
  function CaptureText(c: Option<string>): string {
    match c
    case None => ""
    case Some(s) => s
  }

  /** `toPattern` after passes 1..n of the substitution loop. */
  function Substituted(toPattern: string, captures: seq<Option<string>>, n: nat): string
    requires n <= |captures|
    decreases n
  {
    if n == 0 then toPattern
    else ReplaceFirst(Substituted(toPattern, captures, n - 1), Placeholder(n), CaptureText(captures[n - 1]))
  }

  /** The target URL for a match with the given capture groups 1..k. */
  function TargetUrl(toPattern: string, captures: seq<Option<string>>): string {
    Substituted(toPattern, captures, |captures|)
  }

  /** The loop at lines 21-23: one `replace` per capture group, in order. */
  method SubstituteCaptures(toPattern: string, captures: seq<Option<string>>) returns (targetUrl: string)
    ensures targetUrl == TargetUrl(toPattern, captures)
    ensures captures == [] ==> targetUrl == toPattern
  {
    targetUrl := toPattern;
    var i := 1;
    while i < |captures| + 1
      invariant 1 <= i <= |captures| + 1
      invariant targetUrl == Substituted(toPattern, captures, i - 1)
    {
      var next := ReplaceFirst(targetUrl, Placeholder(i), CaptureText(captures[i - 1]));
      assert next == Substituted(toPattern, captures, i);
      targetUrl, i := next, i + 1;
    }
  }

  /** A pass whose placeholder does not occur leaves the text alone: if none
      of `$1`..`$n` occurs in `toPattern`, the passes leave it unchanged.
      Placeholders above the number of groups are never searched for. */
  lemma {:induction false} UnreferencedUnchanged(toPattern: string, captures: seq<Option<string>>, n: nat)
    requires n <= |captures|
    requires forall i :: 1 <= i <= n ==> IndexOf(toPattern, Placeholder(i)).None?
    ensures Substituted(toPattern, captures, n) == toPattern
    decreases n
  {
    if n > 0 {
      UnreferencedUnchanged(toPattern, captures, n - 1);
    }
  }

  /** A text without `$` contains no placeholder. */
  lemma DollarFreeNoPlaceholder(s: string, i: nat)
    requires '$' !in s
    ensures IndexOf(s, Placeholder(i)).None?
  {
    var pat := Placeholder(i);
    assert pat[0] == '$';
    forall j | 0 <= j <= |s| ensures !OccursAt(s, pat, j) {
      if j + |pat| <= |s| {
        assert s[j..j + |pat|][0] == s[j];
        assert s[j] in s;
      }
    }
  }

  /** Different passes search for different placeholders: the digits after
      the `$` give the pass number back. */
  lemma PlaceholdersDistinct(i: nat, j: nat)
    requires i != j
    ensures Placeholder(i) != Placeholder(j)
  {
    DecimalRoundTrip(i);
    DecimalRoundTrip(j);
    assert Placeholder(i)[1..] == DecimalString(i);
    assert Placeholder(j)[1..] == DecimalString(j);
  }

  /** A template without `$` is its own target URL, whatever matched. */
  lemma DollarFreeUnchanged(toPattern: string, captures: seq<Option<string>>)
    requires '$' !in toPattern
    ensures TargetUrl(toPattern, captures) == toPattern
  {
    forall i | 1 <= i <= |captures| ensures IndexOf(toPattern, Placeholder(i)).None? {
      DollarFreeNoPlaceholder(toPattern, i);
    }
    UnreferencedUnchanged(toPattern, captures, |captures|);
  }

  /** With one capture group, the first `$1` of the template is replaced by
      the captured text, e.g. `https://github.dev/$1` with `foo/bar` gives
      `https://github.dev/foo/bar`. */
  lemma SingleGroupTarget(a: string, b: string, path: string)
    requires '$' !in a && '$' !in path
    ensures TargetUrl(a + "$1" + b, [Some(path)]) == a + path + b
  {
    var s, pat := a + "$1" + b, Placeholder(1);
    assert pat == "$1";
    assert s[..|a|] == a && s[|a| + |pat|..] == b;
    assert OccursAt(s, pat, |a|) by { assert s[|a|..|a| + |pat|] == pat; }
    forall j | 0 <= j < |a| ensures !OccursAt(s, pat, j) {
      assert s[j] == a[j];
    }
    ReplaceFirstAt(s, pat, path, |a|);
  }

  /** A placeholder above the number of groups stays verbatim: `$2` with one
      group is `$2`, not the empty string. */
  lemma ExampleUnreferencedPlaceholder(c: Option<string>)
    ensures TargetUrl("$2", [c]) == "$2"
  {
    assert Placeholder(1) == "$1";
    forall j: nat ensures !OccursAt("$2", "$1", j) {
      if j == 0 { assert "$2"[0..2][1] == '2'; }
    }
  }

  // ---------------------------------------------------------------------
  // Scanning the ordered candidates
  // ---------------------------------------------------------------------

  /** The rule's pattern compiles and matches the URL. */
  predicate Matches(re: RegexEngine, url: string, rule: Rule) {
    re.valid(rule.fromPattern) && re.exec(rule.fromPattern, url).Some?
  }

  /** `m` is what the loop body builds for a rule that matched. */
  predicate IsMatchOf(re: RegexEngine, url: string, m: RuleMatch) {
    Matches(re, url, m.rule)
    && m.targetUrl == TargetUrl(m.rule.toPattern, re.exec(m.rule.fromPattern, url).value)
  }

  /** One iteration of either loop: `new RegExp` (which throws on an invalid
      pattern), `url.match`, and the target URL on a match. */
  function ApplyRule(re: RegexEngine, url: string, rule: Rule): Result<Option<RuleMatch>> {
    if !re.valid(rule.fromPattern) then Threw(rule.fromPattern)
    else match re.exec(rule.fromPattern, url)
      case None => Ok(None)
      case Some(captures) => Ok(Some(RuleMatch(rule, TargetUrl(rule.toPattern, captures))))
  }

  /** The first match in `rules`, or the exception of an invalid pattern met before it. */
  function FirstMatch(re: RegexEngine, url: string, rules: seq<Rule>): Result<Option<RuleMatch>>
    decreases |rules|
  {
    if rules == [] then Ok(None)
    else match ApplyRule(re, url, rules[0])
      case Threw(p) => Threw(p)
      case Ok(Some(m)) => Ok(Some(m))
      case Ok(None) => FirstMatch(re, url, rules[1..])
  }

  /** `ms` in front of the matches of a later part of the scan. */
  function Prepend(ms: seq<RuleMatch>, rest: Result<seq<RuleMatch>>): Result<seq<RuleMatch>> {
    match rest
    case Threw(p) => Threw(p)
    case Ok(tail) => Ok(ms + tail)
  }

  lemma PrependNothing(r: Result<seq<RuleMatch>>)
    ensures Prepend([], r) == r
  {
    if r.Ok? { assert [] + r.value == r.value; }
  }

  lemma PrependTwice(ms: seq<RuleMatch>, more: seq<RuleMatch>, r: Result<seq<RuleMatch>>)
    ensures Prepend(ms, Prepend(more, r)) == Prepend(ms + more, r)
  {
    if r.Ok? { assert ms + (more + r.value) == (ms + more) + r.value; }
  }

  /** Every match in `rules`, in order, or the exception of the first invalid pattern. */
  function AllMatches(re: RegexEngine, url: string, rules: seq<Rule>): Result<seq<RuleMatch>>
    decreases |rules|
  {
    if rules == [] then Ok([])
    else match ApplyRule(re, url, rules[0])
      case Threw(p) => Threw(p)
      case Ok(o) => Prepend(if o.Some? then [o.value] else [], AllMatches(re, url, rules[1..]))
  }

  /** What `findMatchingRule(url, ruleGroups)` returns or throws. */
  function SelectFirst(re: RegexEngine, url: string, groups: seq<RuleGroup>): Result<Option<RuleMatch>> {
    FirstMatch(re, url, OrderedCandidates(groups))
  }

  /** What `findAllMatchingRules(url, ruleGroups)` returns or throws. */
  function SelectAll(re: RegexEngine, url: string, groups: seq<RuleGroup>): Result<seq<RuleMatch>> {
    AllMatches(re, url, OrderedCandidates(groups))
  }

  /** `findMatchingRule`: scan the ordered candidates, return at the first match. */
  method FindMatchingRule(re: RegexEngine, url: string, groups: seq<RuleGroup>)
    returns (result: Result<Option<RuleMatch>>)
    ensures result == SelectFirst(re, url, groups)
  {
    var rules := OrderedCandidates(groups);
    var i := 0;
    while i < |rules|
      invariant 0 <= i <= |rules|
      invariant FirstMatch(re, url, rules) == FirstMatch(re, url, rules[i..])
    {
      var rule := rules[i];
      assert rules[i..][1..] == rules[i + 1..];
      if !re.valid(rule.fromPattern) {
        return Threw(rule.fromPattern);
      }
      var m := re.exec(rule.fromPattern, url);
      if m.Some? {
        var targetUrl := SubstituteCaptures(rule.toPattern, m.value);
        return Ok(Some(RuleMatch(rule, targetUrl)));
      }
      i := i + 1;
    }
    return Ok(None);
  }

  /** `findAllMatchingRules`: scan every ordered candidate, pushing each match. */
  method FindAllMatchingRules(re: RegexEngine, url: string, groups: seq<RuleGroup>)
    returns (result: Result<seq<RuleMatch>>)
    ensures result == SelectAll(re, url, groups)
  {
    var rules := OrderedCandidates(groups);
    var matches: seq<RuleMatch> := [];
    var i := 0;
    assert rules[0..] == rules;
    PrependNothing(AllMatches(re, url, rules));
    while i < |rules|
      invariant 0 <= i <= |rules|
      invariant AllMatches(re, url, rules) == Prepend(matches, AllMatches(re, url, rules[i..]))
    {
      var rule := rules[i];
      assert rules[i..][1..] == rules[i + 1..];
      if !re.valid(rule.fromPattern) {
        return Threw(rule.fromPattern);
      }
      var m := re.exec(rule.fromPattern, url);
      if m.Some? {
        var targetUrl := SubstituteCaptures(rule.toPattern, m.value);
        PrependTwice(matches, [RuleMatch(rule, targetUrl)], AllMatches(re, url, rules[i + 1..]));
        matches := matches + [RuleMatch(rule, targetUrl)];
      } else {
        PrependTwice(matches, [], AllMatches(re, url, rules[i + 1..]));
        assert matches + [] == matches;
      }
      i := i + 1;
    }
    assert rules[i..] == [] && matches + [] == matches;
    return Ok(matches);
  }

  // ---------------------------------------------------------------------
  // Properties of the scan
  // ---------------------------------------------------------------------

  /** The rules that match, in their order. */
  function MatchingRules(re: RegexEngine, url: string, rules: seq<Rule>): (r: seq<Rule>)
    ensures forall x :: x in r ==> x in rules && Matches(re, url, x)
    decreases |rules|
  {
    if rules == [] then []
    else (if Matches(re, url, rules[0]) then [rules[0]] else []) + MatchingRules(re, url, rules[1..])
  }

  function RulesOf(ms: seq<RuleMatch>): (r: seq<Rule>)
    ensures |r| == |ms| && forall i :: 0 <= i < |ms| ==> r[i] == ms[i].rule
    decreases |ms|
  {
    if ms == [] then [] else [ms[0].rule] + RulesOf(ms[1..])
  }

  /** The scan throws exactly when some rule's pattern is invalid. */
  lemma {:induction false} AllMatchesThrows(re: RegexEngine, url: string, rules: seq<Rule>)
    ensures AllMatches(re, url, rules).Threw?
        <==> exists i :: 0 <= i < |rules| && !re.valid(rules[i].fromPattern)
    decreases |rules|
  {
    if rules != [] {
      AllMatchesThrows(re, url, rules[1..]);
      assert forall i :: 1 <= i < |rules| ==> rules[i] == rules[1..][i - 1];
    }
  }

  /** Otherwise it returns exactly the matching rules, each once, in scan
      order, each with the target URL built from its own captures. */
  lemma {:induction false} AllMatchesExact(re: RegexEngine, url: string, rules: seq<Rule>, ms: seq<RuleMatch>)
    requires AllMatches(re, url, rules) == Ok(ms)
    ensures RulesOf(ms) == MatchingRules(re, url, rules)
    ensures forall m :: m in ms ==> IsMatchOf(re, url, m)
    decreases |rules|
  {
    if rules != [] {
      var o := ApplyRule(re, url, rules[0]);
      assert o.Ok?;
      var rest := AllMatches(re, url, rules[1..]);
      assert rest.Ok?;
      var head := if o.value.Some? then [o.value.value] else [];
      assert ms == head + rest.value;
      AllMatchesExact(re, url, rules[1..], rest.value);
      RulesOfAppend(head, rest.value);
      assert o.value.Some? <==> Matches(re, url, rules[0]);
      assert RulesOf(head) == if Matches(re, url, rules[0]) then [rules[0]] else [];
      forall m | m in ms ensures IsMatchOf(re, url, m) {
        if m !in rest.value {
          assert m == o.value.value;
        }
      }
    }
  }

  lemma {:induction false} RulesOfAppend(a: seq<RuleMatch>, b: seq<RuleMatch>)
    ensures RulesOf(a + b) == RulesOf(a) + RulesOf(b)
  {
    var l, r := RulesOf(a + b), RulesOf(a) + RulesOf(b);
    assert |l| == |r|;
    forall i | 0 <= i < |l| ensures l[i] == r[i] {
      if i < |a| { assert (a + b)[i] == a[i]; } else { assert (a + b)[i] == b[i - |a|]; }
    }
  }

  /** The first-match scan throws exactly when an invalid pattern comes
      before the first rule that matches. */
  lemma {:induction false} FirstMatchThrows(re: RegexEngine, url: string, rules: seq<Rule>)
    ensures FirstMatch(re, url, rules).Threw?
        <==> exists j :: 0 <= j < |rules| && !re.valid(rules[j].fromPattern)
                         && forall i :: 0 <= i < j ==> !Matches(re, url, rules[i])
    decreases |rules|
  {
    if rules != [] {
      FirstMatchThrows(re, url, rules[1..]);
      if FirstMatch(re, url, rules).Threw? {
        if re.valid(rules[0].fromPattern) {
          var j :| 0 <= j < |rules[1..]| && !re.valid(rules[1..][j].fromPattern)
                   && forall i :: 0 <= i < j ==> !Matches(re, url, rules[1..][i]);
          assert forall i :: 0 <= i < j + 1 ==> !Matches(re, url, rules[i]) by {
            forall i | 0 <= i < j + 1 ensures !Matches(re, url, rules[i]) {
              if i > 0 { assert rules[i] == rules[1..][i - 1]; }
            }
          }
          assert !re.valid(rules[j + 1].fromPattern);
        }
      } else {
        forall j | 0 <= j < |rules| && !re.valid(rules[j].fromPattern)
          ensures exists i :: 0 <= i < j && Matches(re, url, rules[i])
        {
          if !Matches(re, url, rules[0]) {
            assert j > 0;
            assert rules[j] == rules[1..][j - 1];
            var i :| 0 <= i < j - 1 && Matches(re, url, rules[1..][i]);
            assert rules[i + 1] == rules[1..][i];
          }
        }
      }
    }
  }

  /** When the all-matches scan returns, the first-match scan returns its
      first element, or no match when it is empty. */
  lemma {:induction false} FirstIsHeadOfAll(re: RegexEngine, url: string, rules: seq<Rule>, ms: seq<RuleMatch>)
    requires AllMatches(re, url, rules) == Ok(ms)
    ensures FirstMatch(re, url, rules) == Ok(if ms == [] then None else Some(ms[0]))
    decreases |rules|
  {
    if rules != [] {
      var rest := AllMatches(re, url, rules[1..]);
      assert rest.Ok?;
      if !Matches(re, url, rules[0]) {
        FirstIsHeadOfAll(re, url, rules[1..], rest.value);
      }
    }
  }

  /** A subsequence of a priority-ordered list is priority-ordered. */
  lemma {:induction false} MatchingRulesSorted(re: RegexEngine, url: string, rules: seq<Rule>)
    requires SortedByPriority(rules)
    ensures SortedByPriority(MatchingRules(re, url, rules))
    decreases |rules|
  {
    if rules != [] {
      MatchingRulesSorted(re, url, rules[1..]);
      var tail := MatchingRules(re, url, rules[1..]);
      assert forall y :: y in tail ==> rules[0].priority <= y.priority by {
        forall y | y in tail ensures rules[0].priority <= y.priority {
          var k :| 0 <= k < |rules[1..]| && rules[1..][k] == y;
          assert rules[k + 1] == y;
        }
      }
    }
  }

  /** Selecting the matches and selecting one priority commute. */
  lemma {:induction false} MatchingAtPriority(re: RegexEngine, url: string, rules: seq<Rule>, p: int)
    ensures AtPriority(MatchingRules(re, url, rules), p) == MatchingRules(re, url, AtPriority(rules, p))
    decreases |rules|
  {
    if rules != [] {
      MatchingAtPriority(re, url, rules[1..], p);
      var head := if Matches(re, url, rules[0]) then [rules[0]] else [];
      AtPriorityAppend(head, MatchingRules(re, url, rules[1..]), p);
      var headP := if rules[0].priority == p then [rules[0]] else [];
      MatchingRulesAppend(re, url, headP, AtPriority(rules[1..], p));
    }
  }

  lemma {:induction false} AtPriorityAppend(a: seq<Rule>, b: seq<Rule>, p: int)
    ensures AtPriority(a + b, p) == AtPriority(a, p) + AtPriority(b, p)
    decreases |a|
  {
    if a != [] {
      var head := if a[0].priority == p then [a[0]] else [];
      assert (a + b)[0] == a[0] && (a + b)[1..] == a[1..] + b;
      assert AtPriority(a + b, p) == head + AtPriority(a[1..] + b, p);
      AtPriorityAppend(a[1..], b, p);
      assert AtPriority(a, p) == head + AtPriority(a[1..], p);
    } else {
      assert a + b == b;
    }
  }

  lemma {:induction false} MatchingRulesAppend(re: RegexEngine, url: string, a: seq<Rule>, b: seq<Rule>)
    ensures MatchingRules(re, url, a + b) == MatchingRules(re, url, a) + MatchingRules(re, url, b)
    decreases |a|
  {
    if a != [] {
      var head := if Matches(re, url, a[0]) then [a[0]] else [];
      assert (a + b)[0] == a[0] && (a + b)[1..] == a[1..] + b;
      assert MatchingRules(re, url, a + b) == head + MatchingRules(re, url, a[1..] + b);
      MatchingRulesAppend(re, url, a[1..], b);
      assert MatchingRules(re, url, a) == head + MatchingRules(re, url, a[1..]);
    } else {
      assert a + b == b;
    }
  }

  /** `findAllMatchingRules` lists the matches by ascending priority, and the
      matches of any one priority in group-then-rule order: the result is
      the stable sort of the matching candidates. */
  lemma SelectAllOrdered(re: RegexEngine, url: string, groups: seq<RuleGroup>, ms: seq<RuleMatch>, p: int)
    requires SelectAll(re, url, groups) == Ok(ms)
    ensures SortedByPriority(RulesOf(ms))
    ensures AtPriority(RulesOf(ms), p) == MatchingRules(re, url, AtPriority(Candidates(groups), p))
  {
    var rules := OrderedCandidates(groups);
    AllMatchesExact(re, url, rules, ms);
    MatchingRulesSorted(re, url, rules);
    MatchingAtPriority(re, url, rules, p);
    SortIsStable(Candidates(groups), p);
  }

  /** Every selected rule is an enabled rule of an enabled group, returned as stored. */
  lemma SelectedRulesEnabled(re: RegexEngine, url: string, groups: seq<RuleGroup>)
    ensures SelectAll(re, url, groups).Ok? ==>
      forall m :: m in SelectAll(re, url, groups).value ==>
        m.rule.enabled && exists g :: g in groups && g.enabled && m.rule in g.rules
    ensures SelectFirst(re, url, groups).Ok? && SelectFirst(re, url, groups).value.Some? ==>
      var m := SelectFirst(re, url, groups).value.value;
      m.rule.enabled && exists g :: g in groups && g.enabled && m.rule in g.rules
  {
    var rules := OrderedCandidates(groups);
    assert forall x :: x in rules <==> x in Candidates(groups) by {
      forall x ensures x in rules <==> x in Candidates(groups) {
        assert x in rules <==> x in multiset(rules);
      }
    }
    if SelectAll(re, url, groups).Ok? {
      var ms := SelectAll(re, url, groups).value;
      AllMatchesExact(re, url, rules, ms);
      forall m | m in ms ensures m.rule in rules {
        var k :| 0 <= k < |ms| && ms[k] == m;
        assert RulesOf(ms)[k] == m.rule;
      }
    }
    FirstMatchIsMatch(re, url, rules);
  }

  /** The first match is a genuine match of one of the scanned rules. */
  lemma {:induction false} FirstMatchIsMatch(re: RegexEngine, url: string, rules: seq<Rule>)
    ensures FirstMatch(re, url, rules).Ok? && FirstMatch(re, url, rules).value.Some? ==>
      var m := FirstMatch(re, url, rules).value.value;
      m.rule in rules && IsMatchOf(re, url, m)
    decreases |rules|
  {
    if rules != [] {
      FirstMatchIsMatch(re, url, rules[1..]);
    }
  }

  /** When every candidate pattern is valid, `findAllMatchingRules` returns,
      and `findMatchingRule` returns null exactly when that list is empty and
      its first element otherwise. */
  lemma FirstAgreesWithAll(re: RegexEngine, url: string, groups: seq<RuleGroup>)
    requires forall r :: r in Candidates(groups) ==> re.valid(r.fromPattern)
    ensures SelectAll(re, url, groups).Ok?
    ensures var ms := SelectAll(re, url, groups).value;
            SelectFirst(re, url, groups) == Ok(if ms == [] then None else Some(ms[0]))
  {
    var rules := OrderedCandidates(groups);
    assert forall i :: 0 <= i < |rules| ==> rules[i] in multiset(Candidates(groups));
    AllMatchesThrows(re, url, rules);
    FirstIsHeadOfAll(re, url, rules, AllMatches(re, url, rules).value);
  }
}
