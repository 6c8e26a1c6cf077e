/** The rule editor's state (src/options/hooks/useRuleForm.ts): a class whose
    fields are the hook's `useState` slots, the two effects and the handlers
    as methods, and the pattern generation, edit-mode detection and form
    validation as functions. */
module RuleForm {
  import opened Types
  import opened Strings
  import RuleUtils

  datatype FormMode = Simple | Advanced

  /** The values of all the hook's state slots at one moment. */
  datatype FormFields = FormFields(formMode: FormMode, name: string,
                                   fromPattern: string, toPattern: string,
                                   fromDomain: string, toDomain: string,
                                   priority: int, enabled: bool, createReverse: bool,
                                   patternError: string, autoGenerateName: bool)

  /** The initial `useState` values. */
  const InitialFields: FormFields :=
    FormFields(Simple, "", "", "", "", "", 1, true, true, "", true)

  /** The arguments `onSave(groupId, newRule, createReverse && !rule)` receives. */
  datatype SaveRequest = SaveRequest(groupId: string, data: RuleData, createReverse: bool)

  const NameRequired: string := "Name is required"
  const DomainsRequired: string := "Both domains are required"
  const PatternsRequired: string := "Both patterns are required"
  const InvalidPattern: string := "From pattern is not a valid regular expression"

  // ---------------------------------------------------------------------
  // generatePatterns (lines 130-139)
  // ---------------------------------------------------------------------

  /** The `{ from, to }` patterns of a simple-mode form. */
  function GeneratePatterns(fromDomain: string, toDomain: string): (string, string) {
    (RuleUtils.FromPrefix + RuleUtils.Escape(fromDomain) + RuleUtils.FromSuffix,
     RuleUtils.ToPrefix + toDomain + RuleUtils.ToSuffix)
  }

  /** The generated patterns have exactly the shape `isSimpleDomainPattern`
      recognises, and it gives back the two domains typed into the form. */
  lemma GeneratedPatternsAreSimple(fromDomain: string, toDomain: string)
    requires RuleUtils.IsDomainText(fromDomain) && RuleUtils.IsDomainText(toDomain)
    ensures var (from, to) := GeneratePatterns(fromDomain, toDomain);
            RuleUtils.IsSimpleDomainPattern(from, to) == RuleUtils.Simple(fromDomain, toDomain)
  {
    RuleUtils.EscapingKeepsDomainText(fromDomain);
    RuleUtils.SimpleShapesRecognised(RuleUtils.Escape(fromDomain), toDomain);
    RuleUtils.UnescapeEscape(fromDomain);
  }

  // ---------------------------------------------------------------------
  // Edit-mode detection (lines 66-80)
  // ---------------------------------------------------------------------

  /** The length of the longest `/`-free prefix of `s`. */
  function SlashFreeRun(s: string): (n: nat)
    ensures n <= |s|
    ensures forall i :: 0 <= i < n ==> s[i] != '/'
    ensures n < |s| ==> s[n] == '/'
    decreases |s|
  {
    if |s| > 0 && s[0] != '/' then 1 + SlashFreeRun(s[1..]) else 0
  }

  lemma {:induction false} SlashFreeRunOf(d: string, rest: string)
    requires '/' !in d
    requires rest == [] || rest[0] == '/'
    ensures SlashFreeRun(d + rest) == |d|
    decreases |d|
  {
    if |d| > 0 {
      assert d[0] in d;
      assert '/' !in d[1..] by { assert forall c :: c in d[1..] ==> c in d; }
      SlashFreeRunOf(d[1..], rest);
      assert (d + rest)[1..] == d[1..] + rest;
    } else {
      assert d + rest == rest;
    }
  }

  /** `p.match(/^prefix([^/]+)/)`: the greedy `/`-free run after a leading
      `prefix`, when that run is not empty. */
  function LeadingDomain(p: string, prefix: string): (r: Option<string>)
    ensures r.Some? ==> RuleUtils.IsDomainText(r.value)
    ensures r.Some? ==> exists rest :: p == prefix + r.value + rest && (rest == [] || rest[0] == '/')
    ensures r.None? <==> !(|p| > |prefix| && p[..|prefix|] == prefix && p[|prefix|] != '/')
  {
    if |p| > |prefix| && p[..|prefix|] == prefix && p[|prefix|] != '/' then
      var tail := p[|prefix|..];
      var n := SlashFreeRun(tail);
      var d := tail[..n];
      assert '/' !in d by {
        forall c | c in d ensures c != '/' {
          var i :| 0 <= i < |d| && d[i] == c;
          assert d[i] == tail[i];
        }
      }
      assert p == prefix + d + tail[n..];
      Some(d)
    else None
  }

  /** The run stops at the first `/`, whatever follows it. */
  lemma LeadingDomainOf(prefix: string, d: string, rest: string)
    requires RuleUtils.IsDomainText(d)
    requires rest == [] || rest[0] == '/'
    ensures LeadingDomain(prefix + d + rest, prefix) == Some(d)
  {
    var p := prefix + d + rest;
    assert p[..|prefix|] == prefix;
    assert p[|prefix|..] == d + rest;
    assert p[|prefix|] == d[0];
    SlashFreeRunOf(d, rest);
    assert (d + rest)[..|d|] == d;
  }

  /** The detection of lines 68-77: simple exactly when both patterns start
      with their prefix followed by a non-`/` character; the from-domain is
      unescaped, the to-domain taken as it stands. */
  function DetectDomains(fromPattern: string, toPattern: string): (r: RuleUtils.DomainPattern)
    ensures r.Simple? <==> LeadingDomain(fromPattern, RuleUtils.FromPrefix).Some?
                           && LeadingDomain(toPattern, RuleUtils.ToPrefix).Some?
    ensures r.Simple? ==> r.toDomain == LeadingDomain(toPattern, RuleUtils.ToPrefix).value
    ensures r.Simple? ==> r.fromDomain == RuleUtils.Unescape(LeadingDomain(fromPattern, RuleUtils.FromPrefix).value)
  {
    match (LeadingDomain(fromPattern, RuleUtils.FromPrefix), LeadingDomain(toPattern, RuleUtils.ToPrefix))
    case (Some(d), Some(t)) => RuleUtils.Simple(RuleUtils.Unescape(d), t)
    case _ => RuleUtils.NotSimple
  }

  /** The detection is looser than `isSimpleDomainPattern`: the paths after
      the domains may be anything that starts with `/`. */
  lemma DetectionIgnoresPaths(d: string, t: string, fromRest: string, toRest: string)
    requires RuleUtils.IsDomainText(d) && RuleUtils.IsDomainText(t)
    requires fromRest == [] || fromRest[0] == '/'
    requires toRest == [] || toRest[0] == '/'
    ensures DetectDomains(RuleUtils.FromPrefix + d + fromRest, RuleUtils.ToPrefix + t + toRest)
         == RuleUtils.Simple(RuleUtils.Unescape(d), t)
  {
    LeadingDomainOf(RuleUtils.FromPrefix, d, fromRest);
    LeadingDomainOf(RuleUtils.ToPrefix, t, toRest);
  }

  /** On every rule `isSimpleDomainPattern` calls simple, the detection
      agrees with it, domains included. */
  lemma DetectionExtendsRecognition(fromPattern: string, toPattern: string)
    requires RuleUtils.IsSimpleDomainPattern(fromPattern, toPattern).Simple?
    ensures DetectDomains(fromPattern, toPattern) == RuleUtils.IsSimpleDomainPattern(fromPattern, toPattern)
  {
    var s := RuleUtils.IsSimpleDomainPattern(fromPattern, toPattern);
    var d :| RuleUtils.IsDomainText(d) && fromPattern == RuleUtils.FromPrefix + d + RuleUtils.FromSuffix
             && s.fromDomain == RuleUtils.Unescape(d);
    DetectionIgnoresPaths(d, s.toDomain, RuleUtils.FromSuffix, RuleUtils.ToSuffix);
  }

  /** Opening a simple-mode rule for editing shows the domains it was
      created from. */
  lemma EditShowsSavedDomains(fromDomain: string, toDomain: string)
    requires RuleUtils.IsDomainText(fromDomain) && RuleUtils.IsDomainText(toDomain)
    ensures var (from, to) := GeneratePatterns(fromDomain, toDomain);
            DetectDomains(from, to) == RuleUtils.Simple(fromDomain, toDomain)
  {
    GeneratedPatternsAreSimple(fromDomain, toDomain);
    var (from, to) := GeneratePatterns(fromDomain, toDomain);
    DetectionExtendsRecognition(from, to);
  }

  // ---------------------------------------------------------------------
  // validateForm (lines 102-127) and handleSave (lines 142-164)
  // ---------------------------------------------------------------------

  /** The message `validateForm` leaves in `patternError`; `""` means valid. */
  function ValidationError(f: FormFields, re: RegexEngine): (e: string)
    ensures e == NameRequired <==> IsBlank(f.name)
    ensures e == DomainsRequired <==>
      !IsBlank(f.name) && f.formMode == Simple && (IsBlank(f.fromDomain) || IsBlank(f.toDomain))
    ensures e == PatternsRequired <==>
      !IsBlank(f.name) && f.formMode == Advanced && (IsBlank(f.fromPattern) || IsBlank(f.toPattern))
    ensures e == InvalidPattern <==>
      !IsBlank(f.name) && f.formMode == Advanced && !IsBlank(f.fromPattern) && !IsBlank(f.toPattern)
      && !re.valid(f.fromPattern)
    ensures e == "" <==>
      && !IsBlank(f.name)
      && (f.formMode == Simple ==> !IsBlank(f.fromDomain) && !IsBlank(f.toDomain))
      && (f.formMode == Advanced ==> !IsBlank(f.fromPattern) && !IsBlank(f.toPattern) && re.valid(f.fromPattern))
  {
    assert |NameRequired| == 16 && |DomainsRequired| == 25 && |PatternsRequired| == 26 && |InvalidPattern| == 46;
    if IsBlank(f.name) then NameRequired
    else if f.formMode == Simple then
      if IsBlank(f.fromDomain) || IsBlank(f.toDomain) then DomainsRequired else ""
    else
      assert f.formMode == Advanced;
      if IsBlank(f.fromPattern) || IsBlank(f.toPattern) then PatternsRequired
      else if !re.valid(f.fromPattern) then InvalidPattern
      else ""
  }

  /** In simple mode the pattern fields and the regular-expression check play
      no part in validation. */
  lemma SimpleModeIgnoresPatterns(f: FormFields, re: RegexEngine, fromPattern: string, toPattern: string,
                                  other: RegexEngine)
    requires f.formMode == Simple
    ensures ValidationError(f, re) == ValidationError(f.(fromPattern := fromPattern, toPattern := toPattern), other)
  {
  }

  /** The rule `handleSave` hands to `onSave`. */
  function SavedData(f: FormFields): (data: RuleData)
    ensures data.name == f.name && data.priority == f.priority && data.enabled == f.enabled
    ensures f.formMode == Advanced ==> data.fromPattern == f.fromPattern && data.toPattern == f.toPattern
    ensures f.formMode == Simple ==> (data.fromPattern, data.toPattern) == GeneratePatterns(f.fromDomain, f.toDomain)
  {
    var (from, to) := if f.formMode == Simple then GeneratePatterns(f.fromDomain, f.toDomain)
                      else (f.fromPattern, f.toPattern);
    RuleData(f.name, f.enabled, from, to, f.priority)
  }

  /** A simple-mode rule saved with domains that `[^/]+` accepts is one
      `isSimpleDomainPattern` recognises, whatever the pattern fields hold. */
  lemma SimpleSaveIsSimpleRule(f: FormFields)
    requires f.formMode == Simple
    requires RuleUtils.IsDomainText(f.fromDomain) && RuleUtils.IsDomainText(f.toDomain)
    ensures RuleUtils.IsSimpleDomainPattern(SavedData(f).fromPattern, SavedData(f).toPattern)
         == RuleUtils.Simple(f.fromDomain, f.toDomain)
  {
    GeneratedPatternsAreSimple(f.fromDomain, f.toDomain);
  }

  // ---------------------------------------------------------------------
  // The hook's state
  // ---------------------------------------------------------------------

  class RuleFormState {
    var formMode: FormMode
    var name: string
    var fromPattern: string
    var toPattern: string
    var fromDomain: string
    var toDomain: string
    var priority: int
    var enabled: bool
    var createReverse: bool
    var patternError: string
    var autoGenerateName: bool
    /** The `rule` prop: the rule being edited, if any. */
    const rule: Option<Rule>
    const groupId: string

    function Fields(): FormFields
      reads this
    {
      FormFields(formMode, name, fromPattern, toPattern, fromDomain, toDomain,
                 priority, enabled, createReverse, patternError, autoGenerateName)
    }

    /** What the auto-name effect maintains: while auto-naming is on in simple
        mode with both domains filled in, the name is `from → to`. */
    predicate NameTracksDomains()
      reads this
    {
      autoGenerateName && formMode == Simple && fromDomain != "" && toDomain != ""
      ==> name == RuleUtils.RuleNameFromDomains(fromDomain, toDomain)
    }

    /** The first render: every slot holds its `useState` initial value. */
    constructor(rule: Option<Rule>, groupId: string)
      ensures this.rule == rule && this.groupId == groupId
      ensures Fields() == InitialFields
    {
      formMode, name, fromPattern, toPattern := Simple, "", "", "";
      fromDomain, toDomain, priority, enabled := "", "", 1, true;
      createReverse, patternError, autoGenerateName := true, "", true;
      this.rule := rule;
      this.groupId := groupId;
    }

    /** The effect on `[rule]` (lines 57-82): load the edited rule, switch
        reverse creation off and pick the form mode by detection. In advanced
        mode the domain fields keep what they held. */
    method LoadRule()
      modifies this
      ensures rule.None? ==> Fields() == old(Fields())
      ensures rule.Some? ==>
        var r := rule.value;
        && name == r.name && fromPattern == r.fromPattern && toPattern == r.toPattern
        && priority == r.priority && enabled == r.enabled && !createReverse
        && patternError == old(patternError) && autoGenerateName == old(autoGenerateName)
      ensures rule.Some? ==>
        match DetectDomains(rule.value.fromPattern, rule.value.toPattern)
        case Simple(fd, td) => formMode == Simple && fromDomain == fd && toDomain == td
        case NotSimple => formMode == Advanced && fromDomain == old(fromDomain) && toDomain == old(toDomain)
    {
      if rule.Some? {
        var r := rule.value;
        var detected := DetectDomains(r.fromPattern, r.toPattern);
        name, fromPattern, toPattern := r.name, r.fromPattern, r.toPattern;
        priority, enabled, createReverse := r.priority, r.enabled, false;
        match detected {
          case Simple(fd, td) =>
            fromDomain, toDomain := fd, td;
            formMode := Simple;
          case NotSimple =>
            formMode := Advanced;
        }
      }
    }

    /** The effect on `[autoGenerateName, formMode, fromDomain, toDomain]`
        (lines 85-89). */
    method SyncAutoName()
      modifies this
      ensures NameTracksDomains()
      ensures Fields() == old(Fields()).(name := name)
      ensures !old(autoGenerateName && formMode == Simple && fromDomain != "" && toDomain != "") ==> name == old(name)
    {
      if autoGenerateName && formMode == Simple && fromDomain != "" && toDomain != "" {
        name := RuleUtils.RuleNameFromDomains(fromDomain, toDomain);
      }
    }

    /** Typing a name switches auto-naming off. */
    method HandleNameChange(value: string)
      modifies this
      ensures Fields() == old(Fields()).(name := value, autoGenerateName := false)
      ensures NameTracksDomains()
    {
      name := value;
      autoGenerateName := false;
    }

    method HandleFromDomainChange(value: string)
      modifies this
      ensures autoGenerateName ==> Fields() == old(Fields()).(fromDomain := value,
                                                           name := RuleUtils.RuleNameFromDomains(value, toDomain))
      ensures !autoGenerateName ==> Fields() == old(Fields()).(fromDomain := value)
      ensures NameTracksDomains()
    {
      fromDomain := value;
      if autoGenerateName {
        name := RuleUtils.RuleNameFromDomains(value, toDomain);
      }
    }

    method HandleToDomainChange(value: string)
      modifies this
      ensures autoGenerateName ==> Fields() == old(Fields()).(toDomain := value,
                                                           name := RuleUtils.RuleNameFromDomains(fromDomain, value))
      ensures !autoGenerateName ==> Fields() == old(Fields()).(toDomain := value)
      ensures NameTracksDomains()
    {
      toDomain := value;
      if autoGenerateName {
        name := RuleUtils.RuleNameFromDomains(fromDomain, value);
      }
    }

    /** `validateForm`: the first failing check sets its message and the
        answer is false; otherwise the message is cleared. */
    method ValidateForm(re: RegexEngine) returns (ok: bool)
      modifies this
      ensures Fields() == old(Fields()).(patternError := ValidationError(old(Fields()), re))
      ensures ok <==> patternError == ""
    {
      if IsBlank(name) {
        patternError := NameRequired;
        return false;
      }
      if formMode == Simple {
        if IsBlank(fromDomain) || IsBlank(toDomain) {
          patternError := DomainsRequired;
          return false;
        }
      } else {
        if IsBlank(fromPattern) || IsBlank(toPattern) {
          patternError := PatternsRequired;
          return false;
        }
        if !re.valid(fromPattern) {
          patternError := InvalidPattern;
          return false;
        }
      }
      patternError := "";
      return true;
    }

    /** `handleSave`: `onSave` is called (the answer is `Some`) only when
        validation succeeds, and a reverse rule is requested only for a new
        rule. */
    method HandleSave(re: RegexEngine) returns (request: Option<SaveRequest>)
      modifies this
      ensures Fields() == old(Fields()).(patternError := ValidationError(old(Fields()), re))
      ensures request.Some? <==> ValidationError(old(Fields()), re) == ""
      ensures request.Some? ==>
        request.value == SaveRequest(groupId, SavedData(Fields()), createReverse && rule.None?)
    {
      var ok := ValidateForm(re);
      if !ok {
        return None;
      }
      var finalFromPattern, finalToPattern := fromPattern, toPattern;
      if formMode == Simple {
        var (from, to) := GeneratePatterns(fromDomain, toDomain);
        finalFromPattern, finalToPattern := from, to;
      }
      var newRule := RuleData(name, enabled, finalFromPattern, finalToPattern, priority);
      return Some(SaveRequest(groupId, newRule, createReverse && rule.None?));
    }
  }
}
