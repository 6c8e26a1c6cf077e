# URLSwitch rule engine in Dafny

URLSwitch is a browser extension that sends a tab from one site to another. The user keeps
*rule groups*. Each group holds *rules*, and a rule pairs a regular expression over URLs
(`fromPattern`) with a target template (`toPattern`) in which `$1`, `$2`, … stand for
capture groups. This project models the extension's rule engine and proves properties of
the model. It has five parts.

- **Rule selection** (`RuleMatching`, `src/background/ruleMatching.ts`).
  - The candidates are the enabled rules of enabled groups.
  - They are stably sorted by ascending priority.
  - `findMatchingRule` scans them and returns the first match.
  - `findAllMatchingRules` scans them and returns every match.
  - The target URL is built by the loop of `replace` calls.
- **The background script** (`Background`, `src/background/index.ts`).
  - Its file-local copies of the two scans.
  - The decision of the tab-update listener: navigate, set the badge, clear the badge, or do nothing.
  - The two queries the popup sends.
- **Rule inversion** (`RuleUtils`, `src/options/utils/ruleUtils.ts`).
  - Recognising a "simple domain" rule.
  - Reversing a rule, either by swapping its domains or by the textual transposition used for advanced rules.
- **The rule editor** (`RuleForm`, `src/options/hooks/useRuleForm.ts`).
  - A class `RuleFormState` whose fields are the hook's `useState` slots.
  - The hook's two effects and its handlers are methods of that class.
  - Pattern generation, edit-mode domain detection and validation are functions.
- **The rule-group operations** (`RuleGroups`, `src/options/hooks/useRuleGroups.ts`).
  - Every handler becomes a function from the list of groups to the list it passes to `onUpdateRuleGroups`.
  - The `isAddingGroup` and `editingGroup` state is the class `GroupEditor`.

`Strings` writes out the ECMAScript string operations the engine uses:
- `indexOf`;
- `replace` with a string search value, including the `$$`, `$&`, `` $` `` and `$'` expansion of the replacement (the GetSubstitution operation of ECMA-262);
- `split` and `join`;
- `trim`;
- `String(n)`.

`Types` mirrors `src/types.ts`.

The regular-expression engine is a value `RegexEngine(valid, exec)` passed to every operation
that needs it:
- `valid(p)` says whether `new RegExp(p)` succeeds;
- `exec(p, url)` is `url.match(new RegExp(p))`: no match, or the capture groups 1..k.

The fixed regular expressions of `ruleUtils.ts` and `useRuleForm.ts` are written out as
prefix/infix/suffix string functions instead.

Behaviour of the code that the model reproduces deliberately:
- **An invalid `fromPattern` makes both scans throw.** It is not skipped. The model returns `Threw(pattern)`:
  - `findAllMatchingRules` throws when any candidate is invalid;
  - `findMatchingRule` throws only when an invalid candidate comes before the first match.
  - The tab listener's promise then rejects and nothing happens.
  - The popup queries catch the error and answer "no redirect".
- **Substitution is not a clean placeholder expansion.**
  - Each `$i` pass replaces only the first occurrence.
  - A placeholder above the number of groups stays verbatim: `$2` with one group gives `$2`, not `""`.
  - The `$1` pass hits the front of `$10`.
  - Text inserted by one pass is searched by the later passes.
- **Simple-domain recognition uses `[^/]+`.** It accepts any non-empty domain text without `/`, whatever its characters.
- **The advanced reverse turns each group `(X)` into `$X`.** That is the group's own text, not its ordinal `$k`.
- **The reversed name carries a timestamp** when the name does not split into exactly two parts on ` → `.
- **Editing a group always re-enables it.** `handleSaveGroup` copies `name` and `enabled` from the form data. The group form in `src/options/components/RuleGroupForm.tsx` always sends `enabled: true`. `RuleGroups.SaveGroup` overwrites whatever `enabled` it is given.
- **Opening a rule for editing sets `fromDomain`/`toDomain`** whenever both patterns merely *start* like a simple rule. The path after the domain is ignored (`RuleForm.DetectionIgnoresPaths`).

## Model

| member | source | states |
|---|---|---|
| Strings.IndexOf | src/background/ruleMatching.ts:22 | `indexOf` finds the first index where the search text occurs. It is `None` exactly when the text occurs nowhere. |
| Strings.ReplaceFirstAbsent | src/background/ruleMatching.ts:22 | A `replace` whose search text does not occur returns the text unchanged. |
| Strings.ReplaceFirstAt | src/background/ruleMatching.ts:22 | `replace` changes only the first occurrence. Text before and after it is kept. A replacement without `$` is inserted verbatim. |
| Strings.ExpandLiteral | src/background/ruleMatching.ts:22 | A replacement string without `$` comes out of GetSubstitution unchanged. |
| Strings.DecimalRoundTrip | src/background/ruleMatching.ts:22 | The digits of `$${i}` denote `i`. |
| Strings.JoinSplit | src/options/utils/ruleUtils.ts:57 | Splitting a name on the separator and joining the parts again gives the name back. |
| Strings.BlankIffAllWhiteSpace | src/options/hooks/useRuleForm.ts:103 | `!s.trim()` holds exactly when every character of `s` is white space. |
| RuleMatching.EnabledRules | src/background/ruleMatching.ts:8 | A rule is kept exactly when it is in the group and enabled. |
| RuleMatching.Candidates | src/background/ruleMatching.ts:6-8 | A rule is a candidate exactly when it is enabled and lies in some enabled group. A disabled group contributes nothing. |
| RuleMatching.SortByPriority | src/background/ruleMatching.ts:9 | The sorted list is a permutation of the candidates with non-decreasing priority. |
| RuleMatching.InsertSorted | src/background/ruleMatching.ts:9 | Inserting into a priority-ordered list keeps it ordered. |
| RuleMatching.InsertAtPriority | src/background/ruleMatching.ts:9 | An inserted rule lands in front of every rule of its own priority, and each priority class keeps its order. |
| RuleMatching.SortIsStable | src/background/ruleMatching.ts:9 | The sort is stable: at every priority, the sorted list holds the same rules in the same order as the input. |
| RuleMatching.SubstituteCaptures | src/background/ruleMatching.ts:18-23 | The loop's result is `toPattern` after passes 1..k. Pass i replaces the first `$i` with capture i, or with `""` when the group did not take part. With no groups the result is `toPattern`. |
| RuleMatching.UnreferencedUnchanged | src/background/ruleMatching.ts:21-22 | Passes whose placeholder does not occur leave the template untouched. |
| RuleMatching.PlaceholdersDistinct | src/background/ruleMatching.ts:21-22 | Different passes search for different placeholders `$${i}`. |
| RuleMatching.DollarFreeNoPlaceholder | src/background/ruleMatching.ts:22 | A text without `$` contains no placeholder `$i`. |
| RuleMatching.DollarFreeUnchanged | src/background/ruleMatching.ts:18-23 | A template without `$` is its own target URL, whatever matched. |
| RuleMatching.SingleGroupTarget | src/background/ruleMatching.ts:18-23 | With one group, `a$1b` becomes `a` + capture + `b` when neither `a` nor the capture holds a `$`. |
| RuleMatching.ExampleUnreferencedPlaceholder | src/background/ruleMatching.ts:21-22 | `$2` with a one-group pattern stays `$2`. |
| RuleMatching.SelectFirst | src/background/ruleMatching.ts:4-30 | What `findMatchingRule` returns or throws; its meaning is given by `FirstMatchThrows`, `FirstMatchIsMatch` and `FirstAgreesWithAll`. |
| RuleMatching.SelectAll | src/background/ruleMatching.ts:33-60 | What `findAllMatchingRules` returns or throws; its meaning is given by `AllMatchesThrows`, `AllMatchesExact` and `SelectAllOrdered`. |
| RuleMatching.FindMatchingRule | src/background/ruleMatching.ts:4-30 | The loop returns the first match among the ordered candidates, or `null`. It throws for an invalid pattern met before that match. |
| RuleMatching.FindAllMatchingRules | src/background/ruleMatching.ts:33-60 | The loop returns every match in scan order. It throws for any invalid candidate. |
| RuleMatching.MatchingRules | src/background/ruleMatching.ts:42-57 | Every rule kept is a scanned rule whose pattern matches. |
| RuleMatching.AllMatchesThrows | src/background/ruleMatching.ts:42-44 | The all-matches scan throws exactly when some scanned pattern is invalid. |
| RuleMatching.AllMatchesExact | src/background/ruleMatching.ts:40-59 | When it returns, the rules of its result are exactly the matching rules, once each and in scan order, and each entry carries that rule's target URL. |
| RuleMatching.FirstMatchThrows | src/background/ruleMatching.ts:12-14 | The first-match scan throws exactly when an invalid pattern comes before every matching rule. |
| RuleMatching.FirstIsHeadOfAll | src/background/ruleMatching.ts:12-29 | When the all-matches scan returns, the first-match scan returns its first entry, or `null` for an empty list. |
| RuleMatching.MatchingRulesSorted | src/background/ruleMatching.ts:42-57 | Keeping only the matching rules of a priority-ordered list leaves it priority-ordered. |
| RuleMatching.MatchingAtPriority | src/background/ruleMatching.ts:42-57 | Keeping the matches and keeping one priority class can be done in either order. |
| RuleMatching.SelectAllOrdered | src/background/ruleMatching.ts:35-59 | `findAllMatchingRules` lists its matches by non-decreasing priority. Within one priority they are the matching candidates in group-then-rule order. |
| RuleMatching.SelectedRulesEnabled | src/background/ruleMatching.ts:6-25 | Every rule either scan returns is enabled and sits, unchanged, in some enabled group. |
| RuleMatching.FirstMatchIsMatch | src/background/ruleMatching.ts:12-26 | The first match is a genuine match of a scanned rule, with that rule's target URL. |
| RuleMatching.FirstAgreesWithAll | src/background/ruleMatching.ts:4-60 | When every candidate pattern is valid, `findAllMatchingRules` returns. `findMatchingRule` returns `null` exactly when that list is empty, and its first element otherwise. |
| Background.FindMatchingRule | src/background/index.ts:104-130 | The file-local copy returns or throws exactly what `ruleMatching.ts`'s `findMatchingRule` does, for all inputs. |
| Background.FindAllMatchingRules | src/background/index.ts:133-160 | The file-local copy returns or throws exactly what `ruleMatching.ts`'s `findAllMatchingRules` does, for all inputs. |
| Background.OnTabUpdated | src/background/index.ts:65-101 | Nothing happens unless the status is `complete`, the tab has a URL and the extension is enabled. When all three hold, the outcome follows `findMatchingRule` exactly: a match navigates to its target after `redirectDelay` when `autoRedirect` is on and sets the badge when it is off; no match clears the badge; a throwing scan rejects. |
| Background.NavigationIsJustified | src/background/index.ts:74-82 | The listener navigates only to the target URL of a real match of an enabled rule in an enabled stored group. |
| Background.ActsIffSomeRuleMatches | src/background/index.ts:74-100 | With valid patterns, a loaded tab of an enabled extension gets a navigation or a badge exactly when some rule matches. Otherwise its badge is cleared. |
| Background.CurrentTabRedirect | src/background/index.ts:181-203 | `hasRedirect` holds exactly when the tab has a URL and `findMatchingRule` returns a match, and it carries that match's target. A missing URL or an exception gives `hasRedirect: false` and no target. |
| Background.AllTabRedirects | src/background/index.ts:206-224 | The answer is the list of matches with the tab's URL. A missing URL or an exception gives an empty answer. |
| Background.PopupAnswersAgree | src/background/index.ts:181-224 | With valid patterns, the popup's single redirect exists exactly when its list is non-empty, and it is the list's first target. |
| RuleUtils.Unescape | src/options/utils/ruleUtils.ts:4-6 | Removing the backslashes never lengthens the text, and text without `\` is unchanged. |
| RuleUtils.Escape | src/options/utils/ruleUtils.ts:46 | Escaping never shortens the text, and the result does not start with `.`. |
| RuleUtils.UnescapeEscape | src/options/utils/ruleUtils.ts:4-6 | `extractReadableDomain` undoes the dot escaping of line 46 for every string. |
| RuleUtils.EscapingKeepsDomainText | src/options/utils/ruleUtils.ts:46 | Escaping and unescaping neither add a `/` nor empty a non-empty domain. |
| RuleUtils.DomainBetween | src/options/utils/ruleUtils.ts:18-19 | A found domain is non-empty and `/`-free, and the pattern is exactly prefix + domain + suffix. |
| RuleUtils.DomainBetweenFinds | src/options/utils/ruleUtils.ts:18-19 | Every pattern of that shape yields its domain. |
| RuleUtils.IsSimpleDomainPattern | src/options/utils/ruleUtils.ts:14-30 | A rule is called simple only when `fromPattern` is `^https?://D/(.*)$` and `toPattern` is `https://T/$1`, with D and T non-empty and `/`-free. The domains returned are unescape(D) and T. |
| RuleUtils.SimpleShapesRecognised | src/options/utils/ruleUtils.ts:18-29 | Conversely, every rule of those two shapes is called simple, with domains unescape(D) and T. |
| RuleUtils.Stamp | src/options/utils/ruleUtils.ts:65 | The timestamp is the first 19 characters of the ISO string, with every `T` and `:` turned into `-` and every other character kept. |
| RuleUtils.RuleNameFromDomains | src/options/utils/ruleUtils.ts:9-11 | The name `from → to` splits back on the arrow into the two domains when neither holds an arrow. |
| RuleUtils.SplitArrowName | src/options/utils/ruleUtils.ts:57-60 | A name `A → B` with no `→` in A or B splits into exactly [A, B]. |
| RuleUtils.NoArrowIn | src/options/utils/ruleUtils.ts:57 | A name without `→` contains no separator. |
| RuleUtils.AdvancedName | src/options/utils/ruleUtils.ts:57-66 | The reversed name of the advanced path; its meaning is given by `AdvancedNameSwapsBack` and `AdvancedNameTagged`. |
| RuleUtils.AdvancedNameSwapsBack | src/options/utils/ruleUtils.ts:57-62 | The reverse of `A → B` is named `B → A`, and swapping twice restores the name. |
| RuleUtils.AdvancedNameTagged | src/options/utils/ruleUtils.ts:63-66 | A name without `→` gets ` (Reversed <timestamp>)` appended. |
| RuleUtils.Mark | src/options/utils/ruleUtils.ts:71 | The first `replace` of the advanced reverse, marking each `$n` as `___$n___`; undone by `Unmark` (`UnmarkMark`). |
| RuleUtils.Unmark | src/options/utils/ruleUtils.ts:78 | The last `replace`, turning each `___$n___` back into `$n`; it undoes `Mark` (`UnmarkMark`, `UnmarkMarked`). |
| RuleUtils.UnmarkMark | src/options/utils/ruleUtils.ts:71-78 | Marking every `$n` as `___$n___` and unmarking again gives the text back, so the advanced reverse's `fromPattern` is the old `toPattern`. |
| RuleUtils.UnmarkMarked | src/options/utils/ruleUtils.ts:78 | A mark `___$n___` at the front unmarks to `$n`. |
| RuleUtils.GroupsToRefs | src/options/utils/ruleUtils.ts:72 | Each group `(X)` becomes `$X`; its meaning is given by `GroupsToRefsPrefix`, `NoGroupUnchanged` and `GroupBecomesRef`. |
| RuleUtils.GroupsToRefsPrefix | src/options/utils/ruleUtils.ts:72 | Text before the first `(` is copied unchanged. |
| RuleUtils.NoGroupUnchanged | src/options/utils/ruleUtils.ts:72 | A pattern without `(` is unchanged. |
| RuleUtils.GroupBecomesRef | src/options/utils/ruleUtils.ts:72 | The leftmost group `(X)`, with X non-empty and `)`-free, becomes `$X`, and the scan resumes after it. |
| RuleUtils.CreateReverseRule | src/options/utils/ruleUtils.ts:33-82 | The reverse rule has no id and copies `priority` and `enabled` on both paths. |
| RuleUtils.SimpleReverse | src/options/utils/ruleUtils.ts:40-54 | The reverse of a simple rule; its meaning is given by `ReverseOfSimpleIsSimple` and `DoubleReverseSimple`. |
| RuleUtils.AdvancedReverse | src/options/utils/ruleUtils.ts:56-80 | The reverse of any other rule; its meaning is given by `AdvancedReverseTransposes`. |
| RuleUtils.ReverseOfSimpleIsSimple | src/options/utils/ruleUtils.ts:40-54 | The reverse of a simple rule D → T is named `T → unescape(D)` and has patterns `^https?://escape(T)/(.*)$` and `https://unescape(D)/$1`. It is again simple, with the domains swapped. |
| RuleUtils.DoubleReverseSimple | src/options/utils/ruleUtils.ts:40-54 | Reversing twice a simple rule whose domain is escape(d) restores its patterns, priority and flag. |
| RuleUtils.AdvancedReverseTransposes | src/options/utils/ruleUtils.ts:56-80 | On the advanced path, the new `fromPattern` is the old `toPattern`. The new `toPattern` is the old `fromPattern` with its groups turned into references, and the name is swapped or tagged. |
| RuleForm.GeneratePatterns | src/options/hooks/useRuleForm.ts:130-139 | The two patterns built from the domains; their meaning is given by `GeneratedPatternsAreSimple`. |
| RuleForm.GeneratedPatternsAreSimple | src/options/hooks/useRuleForm.ts:130-139 | For non-empty `/`-free domains, the generated patterns are called simple by `isSimpleDomainPattern`, which returns the same two domains. |
| RuleForm.LeadingDomain | src/options/hooks/useRuleForm.ts:68-69 | The match succeeds exactly when the pattern starts with the prefix and a non-`/` character. The group is then the `/`-free run that follows, up to the first `/` or the end. |
| RuleForm.LeadingDomainOf | src/options/hooks/useRuleForm.ts:68-69 | Prefix + domain + anything starting with `/` yields that domain. |
| RuleForm.DetectDomains | src/options/hooks/useRuleForm.ts:66-80 | The mode is simple exactly when both patterns have their prefix. The from-domain is the unescaped leading run and the to-domain the leading run as it stands. |
| RuleForm.DetectionIgnoresPaths | src/options/hooks/useRuleForm.ts:68-77 | Detection looks only at the domains: any path after them is accepted. |
| RuleForm.DetectionExtendsRecognition | src/options/hooks/useRuleForm.ts:66-80 | On every rule `isSimpleDomainPattern` calls simple, the detection agrees with it, domains included. |
| RuleForm.EditShowsSavedDomains | src/options/hooks/useRuleForm.ts:66-77 | Opening a rule saved in simple mode shows the domains it was made from. |
| RuleForm.ValidationError | src/options/hooks/useRuleForm.ts:102-127 | The checks run in order: blank name, then a blank domain in simple mode, then a blank pattern or an invalid `fromPattern` in advanced mode. Each message is produced exactly when its check is the first to fail. `""` is produced exactly when all pass. |
| RuleForm.SimpleModeIgnoresPatterns | src/options/hooks/useRuleForm.ts:108-112 | In simple mode, neither the pattern fields nor the regular-expression engine affect validation. |
| RuleForm.SavedData | src/options/hooks/useRuleForm.ts:145-161 | The saved rule takes name, priority and flag from the form. Its patterns are the generated ones in simple mode and the typed ones in advanced mode. |
| RuleForm.SimpleSaveIsSimpleRule | src/options/hooks/useRuleForm.ts:149-153 | A simple-mode save with valid domains produces a rule `isSimpleDomainPattern` recognises, with those domains, whatever the pattern fields hold. |
| RuleForm.RuleFormState.constructor | src/options/hooks/useRuleForm.ts:44-54 | Every slot starts at its `useState` initial value. |
| RuleForm.RuleFormState.LoadRule | src/options/hooks/useRuleForm.ts:57-82 | Editing a rule loads its fields and switches reverse creation off. It selects simple mode with the detected domains, or advanced mode with the domains untouched. Without a rule nothing changes. |
| RuleForm.RuleFormState.SyncAutoName | src/options/hooks/useRuleForm.ts:85-89 | After the effect, auto-naming in simple mode with both domains filled means the name is `from → to`. Only the name changes, and only in that case. |
| RuleForm.RuleFormState.HandleNameChange | src/options/hooks/useRuleForm.ts:166-169 | Typing a name stores it and switches auto-naming off. |
| RuleForm.RuleFormState.HandleFromDomainChange | src/options/hooks/useRuleForm.ts:171-176 | The from-domain is stored. While auto-naming is on, the name follows the new domains. Nothing else changes. |
| RuleForm.RuleFormState.HandleToDomainChange | src/options/hooks/useRuleForm.ts:178-183 | The to-domain is stored. While auto-naming is on, the name follows the new domains. Nothing else changes. |
| RuleForm.RuleFormState.ValidateForm | src/options/hooks/useRuleForm.ts:102-127 | `patternError` becomes the first failing check's message, or `""`. The answer is true exactly when it is `""`, and no other slot changes. |
| RuleForm.RuleFormState.HandleSave | src/options/hooks/useRuleForm.ts:142-164 | `onSave` is called exactly when validation succeeds, with the group id and the saved rule. A reverse is requested only for a new rule. |
| RuleGroups.ToggleGroup | src/options/hooks/useRuleGroups.ts:80-85 | Only the `enabled` flag of groups with the id flips. Ids, names, rules and length are kept. |
| RuleGroups.ToggleGroupTwice | src/options/hooks/useRuleGroups.ts:80-85 | Toggling a group twice restores the list. |
| RuleGroups.ToggleRule | src/options/hooks/useRuleGroups.ts:88-100 | Only rules with `ruleId` inside groups with `groupId` flip `enabled`. All lengths and all other data are kept. |
| RuleGroups.ToggleRuleTwice | src/options/hooks/useRuleGroups.ts:88-100 | Toggling a rule twice restores the list. |
| RuleGroups.AddReverseRule | src/options/hooks/useRuleGroups.ts:103-118 | The list keeps its length; what each group gains is given by `AddReverseRuleAt`. |
| RuleGroups.AddReverseRuleAt | src/options/hooks/useRuleGroups.ts:103-118 | Each target group gains exactly one rule at its end: `createReverseRule(rule)` under the next fresh id. Other groups are untouched. |
| RuleGroups.SaveRule | src/options/hooks/useRuleGroups.ts:121-147 | The list keeps its length; what each group gains is given by `SaveRuleAt`. |
| RuleGroups.SaveRuleAt | src/options/hooks/useRuleGroups.ts:121-147 | Each target group keeps its rules in place and gains the new rule under a fresh id. When asked, the rule's reverse follows under the next id, so the group grows by 1 or 2. Other groups are untouched. |
| RuleGroups.SavedReverseIsSimple | src/options/hooks/useRuleGroups.ts:134-138 | Saving a simple rule D → T with a reverse adds the simple rule T → D. |
| RuleGroups.UpdateRule | src/options/hooks/useRuleGroups.ts:150-162 | Within groups with the id, each rule with the updated id is replaced in place. Lengths, order and all other rules and groups are kept. |
| RuleGroups.UpdateRuleKeepsIds | src/options/hooks/useRuleGroups.ts:150-162 | Updating keeps every rule's id, and repeating the update changes nothing. |
| RuleGroups.RemoveRule | src/options/hooks/useRuleGroups.ts:170 | A rule survives exactly when its id differs from `ruleId`. |
| RuleGroups.DeleteRule | src/options/hooks/useRuleGroups.ts:165-176 | Nothing is saved unless the user confirms. Then the target groups lose exactly the rules with the id, and other groups are untouched. |
| RuleGroups.DeleteGroup | src/options/hooks/useRuleGroups.ts:72-77 | Nothing is saved unless the user confirms. Then a group survives exactly when its id differs. |
| RuleGroups.DeletionKeepsOrder | src/options/hooks/useRuleGroups.ts:72-77 | Both deletions keep the survivors in their order: deleting from a joined list is joining the deletions from the halves. |
| RuleGroups.UnknownGroupChangesNothing | src/options/hooks/useRuleGroups.ts:80-162 | A group id no group has leaves every map-based handler's list, and group deletion, equal to the input. |
| RuleGroups.SaveGroup | src/options/hooks/useRuleGroups.ts:50-65 | An edit overwrites name and flag of the edited group, keeping its id and rules. A create appends a new empty group with a fresh id. |
| RuleGroups.GroupEditor.constructor | src/options/hooks/useRuleGroups.ts:28-29 | The group form starts closed, with nothing being edited. |
| RuleGroups.GroupEditor.HandleAddGroup | src/options/hooks/useRuleGroups.ts:32-35 | The form opens for a new group. |
| RuleGroups.GroupEditor.HandleEditGroup | src/options/hooks/useRuleGroups.ts:38-41 | The form opens on the given group. |
| RuleGroups.GroupEditor.HandleCancelGroupEdit | src/options/hooks/useRuleGroups.ts:44-47 | The form closes with nothing being edited. |
| RuleGroups.GroupEditor.HandleSaveGroup | src/options/hooks/useRuleGroups.ts:50-69 | The saved list is the edit or the append, chosen by the group being edited, and the form closes. Throughout, a group is edited only while the form is open. |

## Left out

- The regular-expression engine (`new RegExp`, `url.match`, `testPattern`) is the parameter `RegexEngine`. Only the fixed expressions of `ruleUtils.ts` and `useRuleForm.ts` are written out.
- Chrome APIs are not modelled. The model returns the action the listener would perform instead. This covers:
  - `chrome.storage`, `chrome.tabs.query`/`update`, the badge calls and `setTimeout`;
  - `console.log`;
  - the install listener;
  - the message listener, including `performRedirect`.
- `tabs[0]?.url` and the stored settings and groups are parameters of the background functions.
- `uuidv4()` is a stream `uuid: nat -> string` of fresh ids, numbered in the order the handler calls it. The model does not assume the ids differ.
- `confirm()` is the parameter `confirmed`. The clock read by `createReverseRule` is the ISO string `iso`, one per handler call.
- `onUpdateRuleGroups` and `onSave` are not called. Their argument is the function's result: `None` when the source does not call them.
- React is not modelled: rendering, the timing of `useState` updates and re-renders, and the `.tsx` components.
  - The effects are the methods `LoadRule` and `SyncAutoName`, which a caller runs after the change that triggers them.
  - `HandleSave` sees the state as `ValidateForm` left it, not a stale closure.
- The plain setters returned by `useRuleForm` (`setFormMode`, `setFromPattern`, `setToPattern`, `setPriority`, `setCreateReverse`, `setAutoGenerateName`) assign one field each. They are not modelled separately.
- The `try`/`catch` around the domain detection (`useRuleForm.ts:67-80`) is not modelled. Nothing inside it can throw, so the `catch` branch is dead.
- `isSimple && fromDomain && toDomain` (`ruleUtils.ts:40`) is modelled as `isSimple`. A recognised domain is never empty after unescaping (`RuleUtils.EscapingKeepsDomainText`).
- Priorities are integers. The float and `NaN` values that the form's number input could produce are not modelled.
- `updatedRules.push(reverseRule)` (`useRuleGroups.ts:140`) mutates a local array that has just been created. It is modelled as concatenation.
- i18n, JSON import/export, default settings and the build scripts are not part of this model.
- `RuleUtils.Escape` states only that its result is no shorter and does not start with `.`. Its meaning is carried by `RuleUtils.UnescapeEscape`.
