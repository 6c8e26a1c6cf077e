/** The shapes of src/types.ts, plus the regular-expression engine that the
    rule engine treats as a black box. */
module Types {

  datatype Option<+T> = None | Some(value: T)

  /** The outcome of code that may throw: `Threw(p)` is the SyntaxError that
      `new RegExp(p)` raises for a pattern the engine rejects. */
  datatype Result<+T> = Ok(value: T) | Threw(pattern: string)

  /** A rule: a regular expression over URLs and a template for the target. */
  datatype Rule = Rule(id: string, name: string, enabled: bool,
                       fromPattern: string, toPattern: string, priority: int)
  {
    /** The rule without its id (`Omit<Rule, 'id'>`). */
    function Data(): RuleData {
      RuleData(name, enabled, fromPattern, toPattern, priority)
    }
  }

  /** `Omit<Rule, 'id'>`: what the reverse-rule builder and the form produce. */
  datatype RuleData = RuleData(name: string, enabled: bool,
                               fromPattern: string, toPattern: string, priority: int)
  {
    /** `{ id, ...data }` */
    function WithId(id: string): (r: Rule)
      ensures r.id == id && r.Data() == this
    {
      Rule(id, name, enabled, fromPattern, toPattern, priority)
    }
  }

  datatype RuleGroup = RuleGroup(id: string, name: string, enabled: bool, rules: seq<Rule>)

  /** The result of applying one rule to one URL. */
  datatype RuleMatch = RuleMatch(rule: Rule, targetUrl: string)

  datatype Settings = Settings(enabled: bool, autoRedirect: bool, redirectDelay: int)

  /** The JavaScript regular-expression engine, which is not modelled.
      `valid(p)` says whether `new RegExp(p)` succeeds; `exec(p, s)` is
      `s.match(new RegExp(p))` for a valid `p`: `None` for no match, or the
      capture groups 1..k (`None` for a group that did not participate). */
  datatype RegexEngine = RegexEngine(valid: string -> bool,
                                     exec: (string, string) -> Option<seq<Option<string>>>)
}
