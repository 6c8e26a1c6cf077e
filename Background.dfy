/** The background script (src/background/index.ts): its own copies of the
    two rule-selection functions, and the decisions its Chrome listeners make,
    with the Chrome calls replaced by the action they would perform. */
module Background {
  import opened Types
  import RuleMatching

  // ---------------------------------------------------------------------
  // The local copies of findMatchingRule / findAllMatchingRules (104-160)
  // ---------------------------------------------------------------------

  /** The file-local `findMatchingRule`: the same scan as the exported one,
      so it returns or throws exactly what `RuleMatching.FindMatchingRule` does. */
  method FindMatchingRule(re: RegexEngine, url: string, groups: seq<RuleGroup>)
    returns (result: Result<Option<RuleMatch>>)
    ensures result == RuleMatching.SelectFirst(re, url, groups)
  {
    var rules := RuleMatching.OrderedCandidates(groups);
    for i := 0 to |rules|
      invariant RuleMatching.FirstMatch(re, url, rules) == RuleMatching.FirstMatch(re, url, rules[i..])
    {
      var rule := rules[i];
      assert rules[i..][1..] == rules[i + 1..];
      if !re.valid(rule.fromPattern) {
        return Threw(rule.fromPattern);
      }
      var m := re.exec(rule.fromPattern, url);
      if m.Some? {
        var targetUrl := RuleMatching.SubstituteCaptures(rule.toPattern, m.value);
        return Ok(Some(RuleMatch(rule, targetUrl)));
      }
    }
    return Ok(None);
  }

  /** The file-local `findAllMatchingRules`, equal to `RuleMatching.FindAllMatchingRules`. */
  method FindAllMatchingRules(re: RegexEngine, url: string, groups: seq<RuleGroup>)
    returns (result: Result<seq<RuleMatch>>)
    ensures result == RuleMatching.SelectAll(re, url, groups)
  {
    var rules := RuleMatching.OrderedCandidates(groups);
    var matches: seq<RuleMatch> := [];
    assert rules[0..] == rules;
    RuleMatching.PrependNothing(RuleMatching.AllMatches(re, url, rules));
    for i := 0 to |rules|
      invariant RuleMatching.AllMatches(re, url, rules)
             == RuleMatching.Prepend(matches, RuleMatching.AllMatches(re, url, rules[i..]))
    {
      var rule := rules[i];
      assert rules[i..][1..] == rules[i + 1..];
      if !re.valid(rule.fromPattern) {
        return Threw(rule.fromPattern);
      }
      var m := re.exec(rule.fromPattern, url);
      if m.Some? {
        var targetUrl := RuleMatching.SubstituteCaptures(rule.toPattern, m.value);
        RuleMatching.PrependTwice(matches, [RuleMatch(rule, targetUrl)], RuleMatching.AllMatches(re, url, rules[i + 1..]));
        matches := matches + [RuleMatch(rule, targetUrl)];
      } else {
        RuleMatching.PrependTwice(matches, [], RuleMatching.AllMatches(re, url, rules[i + 1..]));
        assert matches + [] == matches;
      }
    }
    assert rules[|rules|..] == [] && matches + [] == matches;
    return Ok(matches);
  }

  // ---------------------------------------------------------------------
  // The tab-update listener (65-101)
  // ---------------------------------------------------------------------

  /** What the listener does to the tab. `Rejected` is the listener's
      promise rejecting because `new RegExp` threw: nothing is done. */
  datatype TabAction =
    | Ignore
    | Navigate(url: string, delay: int)   // setTimeout(() => chrome.tabs.update(tabId, { url }), delay)
    | ShowBadge                           // setBadgeText('↔️') and a green background
    | ClearBadge                          // setBadgeText('')
    | Rejected(pattern: string)

  /** A JavaScript string that is defined and not empty, i.e. truthy. */
  predicate Truthy(s: Option<string>) {
    s.Some? && s.value != ""
  }

  /** `ruleGroups || []` */
  function StoredGroups(stored: Option<seq<RuleGroup>>): seq<RuleGroup> {
    match stored
    case None => []
    case Some(groups) => groups
  }

  /** `settings?.enabled` */
  predicate SwitchedOn(settings: Option<Settings>) {
    settings.Some? && settings.value.enabled
  }

  /** The listener's decision for one `onUpdated` event, given the tab's
      status and URL and what storage holds. */
  function OnTabUpdated(re: RegexEngine, status: Option<string>, tabUrl: Option<string>,
                        settings: Option<Settings>, stored: Option<seq<RuleGroup>>): (a: TabAction)
    ensures status != Some("complete") || !Truthy(tabUrl) || !SwitchedOn(settings) ==> a == Ignore
    ensures status == Some("complete") && Truthy(tabUrl) && SwitchedOn(settings) ==>
      var found := RuleMatching.SelectFirst(re, tabUrl.value, StoredGroups(stored));
      && (a.Navigate? <==> found.Ok? && found.value.Some? && settings.value.autoRedirect)
      && (a.Navigate? ==> a.url == found.value.value.targetUrl && a.delay == settings.value.redirectDelay)
      && (a == ShowBadge <==> found.Ok? && found.value.Some? && !settings.value.autoRedirect)
      && (a == ClearBadge <==> found == Ok(None))
      && (a.Rejected? <==> found.Threw?)
  {
    if status != Some("complete") || !Truthy(tabUrl) then Ignore
    else if !SwitchedOn(settings) then Ignore
    else
      match RuleMatching.SelectFirst(re, tabUrl.value, StoredGroups(stored))
      case Threw(p) => Rejected(p)
      case Ok(None) => ClearBadge
      case Ok(Some(m)) =>
        if settings.value.autoRedirect then Navigate(m.targetUrl, settings.value.redirectDelay)
        else ShowBadge
  }

  /** The listener navigates only to the target URL of an enabled rule of an
      enabled group whose pattern matches the tab's URL. */
  lemma NavigationIsJustified(re: RegexEngine, status: Option<string>, tabUrl: Option<string>,
                              settings: Option<Settings>, stored: Option<seq<RuleGroup>>)
    requires OnTabUpdated(re, status, tabUrl, settings, stored).Navigate?
    ensures var a := OnTabUpdated(re, status, tabUrl, settings, stored);
            exists m: RuleMatch ::
              && RuleMatching.IsMatchOf(re, tabUrl.value, m) && m.targetUrl == a.url
              && m.rule.enabled
              && exists g :: g in StoredGroups(stored) && g.enabled && m.rule in g.rules
  {
    var groups := StoredGroups(stored);
    RuleMatching.FirstMatchIsMatch(re, tabUrl.value, RuleMatching.OrderedCandidates(groups));
    RuleMatching.SelectedRulesEnabled(re, tabUrl.value, groups);
  }

  /** With every stored pattern valid, an enabled extension acts on a loaded
      tab (navigation or badge) exactly when some enabled rule matches, and
      clears the badge otherwise. */
  lemma ActsIffSomeRuleMatches(re: RegexEngine, tabUrl: string,
                               settings: Settings, stored: Option<seq<RuleGroup>>)
    requires tabUrl != "" && settings.enabled
    requires forall r :: r in RuleMatching.Candidates(StoredGroups(stored)) ==> re.valid(r.fromPattern)
    ensures var a := OnTabUpdated(re, Some("complete"), Some(tabUrl), Some(settings), stored);
            && (a.Navigate? || a == ShowBadge || a == ClearBadge)
            && (a == ClearBadge <==> RuleMatching.SelectAll(re, tabUrl, StoredGroups(stored)) == Ok([]))
  {
    RuleMatching.FirstAgreesWithAll(re, tabUrl, StoredGroups(stored));
  }

  // ---------------------------------------------------------------------
  // The popup's queries (181-224)
  // ---------------------------------------------------------------------

  /** `{ hasRedirect, targetUrl? }` */
  datatype RedirectInfo = RedirectInfo(hasRedirect: bool, targetUrl: Option<string>)

  /** `{ matches, currentUrl }` */
  datatype MultiRuleMatches = MultiRuleMatches(matches: seq<RuleMatch>, currentUrl: string)

  /** `getCurrentTabRedirect` for an active tab whose URL is `activeUrl`
      (`None` when there is no tab or it has no URL); an exception from the
      scan is caught and reported as no redirect. */
  function CurrentTabRedirect(re: RegexEngine, activeUrl: Option<string>,
                              stored: Option<seq<RuleGroup>>): (info: RedirectInfo)
    ensures info.hasRedirect <==>
      Truthy(activeUrl) && RuleMatching.SelectFirst(re, activeUrl.value, StoredGroups(stored)).Ok?
      && RuleMatching.SelectFirst(re, activeUrl.value, StoredGroups(stored)).value.Some?
    ensures info.hasRedirect ==>
      info.targetUrl == Some(RuleMatching.SelectFirst(re, activeUrl.value, StoredGroups(stored)).value.value.targetUrl)
    ensures !info.hasRedirect ==> info.targetUrl == None
  {
    if !Truthy(activeUrl) then RedirectInfo(false, None)
    else
      match RuleMatching.SelectFirst(re, activeUrl.value, StoredGroups(stored))
      case Threw(_) => RedirectInfo(false, None)
      case Ok(None) => RedirectInfo(false, None)
      case Ok(Some(m)) => RedirectInfo(true, Some(m.targetUrl))
  }

  /** `getAllTabRedirects`: the matches for the active tab's URL, or an empty
      answer when there is no URL or the scan throws. */
  function AllTabRedirects(re: RegexEngine, activeUrl: Option<string>,
                           stored: Option<seq<RuleGroup>>): (answer: MultiRuleMatches)
    ensures !Truthy(activeUrl) ==> answer == MultiRuleMatches([], "")
    ensures Truthy(activeUrl) ==>
      match RuleMatching.SelectAll(re, activeUrl.value, StoredGroups(stored))
      case Threw(_) => answer == MultiRuleMatches([], "")
      case Ok(ms) => answer == MultiRuleMatches(ms, activeUrl.value)
  {
    if !Truthy(activeUrl) then MultiRuleMatches([], "")
    else
      match RuleMatching.SelectAll(re, activeUrl.value, StoredGroups(stored))
      case Threw(_) => MultiRuleMatches([], "")
      case Ok(ms) => MultiRuleMatches(ms, activeUrl.value)
  }

  /** When every stored pattern is valid, the popup's single redirect is the
      first entry of its list of redirects. */
  lemma PopupAnswersAgree(re: RegexEngine, activeUrl: string, stored: Option<seq<RuleGroup>>)
    requires activeUrl != ""
    requires forall r :: r in RuleMatching.Candidates(StoredGroups(stored)) ==> re.valid(r.fromPattern)
    ensures var info := CurrentTabRedirect(re, Some(activeUrl), stored);
            var all := AllTabRedirects(re, Some(activeUrl), stored);
            && all.currentUrl == activeUrl
            && (info.hasRedirect <==> all.matches != [])
            && (info.hasRedirect ==> info.targetUrl == Some(all.matches[0].targetUrl))
  {
    RuleMatching.FirstAgreesWithAll(re, activeUrl, StoredGroups(stored));
  }
}
