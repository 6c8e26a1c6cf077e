/** Rule inversion (src/options/utils/ruleUtils.ts): recognising a
    "simple domain" rule, and deriving the reverse of any rule. The fixed
    regular expressions of that file are written out as string functions. */
module RuleUtils {
  import opened Types
  import opened Strings

  // ---------------------------------------------------------------------
  // Escaping dots
  // ---------------------------------------------------------------------

  /** `extractReadableDomain`: `domain.replace(/\\\./g, '.')`, every `\.` becomes `.`. */
  function Unescape(s: string): (r: string)
    ensures |r| <= |s|
    ensures '\\' !in s ==> r == s
    decreases |s|
  {
    if |s| == 0 then ""
    else if |s| >= 2 && s[0] == '\\' && s[1] == '.' then "." + Unescape(s[2..])
    else [s[0]] + Unescape(s[1..])
  }

  /** `domain.replace(/\./g, '\\.')`: every `.` becomes `\.`. */
  function Escape(s: string): (r: string)
    ensures r == [] || r[0] != '.'
    ensures |r| >= |s|
    decreases |s|
  {
    if |s| == 0 then ""
    else if s[0] == '.' then "\\." + Escape(s[1..])
    else [s[0]] + Escape(s[1..])
  }

  /** Unescaping undoes escaping, for every string. */
  lemma {:induction false} UnescapeEscape(s: string)
    ensures Unescape(Escape(s)) == s
    decreases |s|
  {
    if |s| > 0 {
      UnescapeEscape(s[1..]);
      if s[0] == '.' {
        assert ("\\." + Escape(s[1..]))[2..] == Escape(s[1..]);
      } else {
        assert ([s[0]] + Escape(s[1..]))[1..] == Escape(s[1..]);
      }
    }
  }

  /** Neither direction introduces a `/` or loses every character. */
  lemma {:induction false} EscapingKeepsDomainText(s: string)
    ensures '/' !in s ==> '/' !in Escape(s) && '/' !in Unescape(s)
    ensures s != "" ==> Escape(s) != "" && Unescape(s) != ""
    decreases |s|
  {
    if |s| > 0 {
      EscapingKeepsDomainText(s[1..]);
      if |s| >= 2 && s[0] == '\\' && s[1] == '.' {
        EscapingKeepsDomainText(s[2..]);
        assert '/' !in s ==> '/' !in s[2..] by {
          assert forall c :: c in s[2..] ==> c in s;
        }
      }
    }
  }

  /** `generateRuleNameFromDomains`: a name that splits back on the arrow
      into the two domains, when neither holds an arrow. */
  function RuleNameFromDomains(fromDomain: string, toDomain: string): (r: string)
    ensures '→' !in fromDomain && '→' !in toDomain ==> Split(r, Arrow) == [fromDomain, toDomain]
  {
    var name := fromDomain + Arrow + toDomain;
    if '→' !in fromDomain && '→' !in toDomain then
      SplitArrowName(fromDomain, toDomain);
      name
    else name
  }

  /** The separator of generated names: space, U+2192, space. */
  const Arrow: string := " → "

  // ---------------------------------------------------------------------
  // Recognising simple domain rules
  // ---------------------------------------------------------------------

  const FromPrefix: string := "^https?://"
  const FromSuffix: string := "/(.*)$"
  const ToPrefix: string := "https://"
  const ToSuffix: string := "/$1"

  /** What `([^/]+)` accepts: a non-empty run without `/`. */
  predicate IsDomainText(d: string) {
    d != "" && '/' !in d
  }

  /** The `([^/]+)` group of an anchored pattern `^prefix([^/]+)suffix$`
      (with a suffix that starts with `/`), if the pattern matches. */
  function DomainBetween(p: string, prefix: string, suffix: string): (r: Option<string>)
    ensures r.Some? ==> IsDomainText(r.value) && p == prefix + r.value + suffix
  {
    if |p| > |prefix| + |suffix| && p[..|prefix|] == prefix && p[|p| - |suffix|..] == suffix
       && '/' !in p[|prefix|..|p| - |suffix|]
    then
      assert p == p[..|prefix|] + p[|prefix|..|p| - |suffix|] + p[|p| - |suffix|..];
      Some(p[|prefix|..|p| - |suffix|])
    else None
  }

  /** The extractor finds every domain the pattern can hold. */
  lemma DomainBetweenFinds(prefix: string, d: string, suffix: string)
    requires IsDomainText(d)
    ensures DomainBetween(prefix + d + suffix, prefix, suffix) == Some(d)
  {
    var p := prefix + d + suffix;
    assert p[..|prefix|] == prefix && p[|p| - |suffix|..] == suffix && p[|prefix|..|p| - |suffix|] == d;
  }

  /** The classification of a rule (`{ isSimple, fromDomain?, toDomain? }`). */
  datatype DomainPattern = Simple(fromDomain: string, toDomain: string) | NotSimple

  /** `isSimpleDomainPattern`: both patterns have the generated shape; the
      from-domain is returned unescaped, the to-domain as it stands. */
  function IsSimpleDomainPattern(fromPattern: string, toPattern: string): (r: DomainPattern)
    ensures r.Simple? ==>
      exists d :: IsDomainText(d) && fromPattern == FromPrefix + d + FromSuffix && r.fromDomain == Unescape(d)
    ensures r.Simple? ==> IsDomainText(r.toDomain) && toPattern == ToPrefix + r.toDomain + ToSuffix
    ensures r.Simple? ==> IsDomainText(r.fromDomain)
  {
    match (DomainBetween(fromPattern, FromPrefix, FromSuffix), DomainBetween(toPattern, ToPrefix, ToSuffix))
    case (Some(d), Some(t)) =>
      EscapingKeepsDomainText(d);
      Simple(Unescape(d), t)
    case _ => NotSimple
  }

  /** Every pair of patterns of the two shapes is recognised, with its domains. */
  lemma SimpleShapesRecognised(d: string, t: string)
    requires IsDomainText(d) && IsDomainText(t)
    ensures IsSimpleDomainPattern(FromPrefix + d + FromSuffix, ToPrefix + t + ToSuffix) == Simple(Unescape(d), t)
  {
    DomainBetweenFinds(FromPrefix, d, FromSuffix);
    DomainBetweenFinds(ToPrefix, t, ToSuffix);
  }

  // ---------------------------------------------------------------------
  // The reverse of a simple rule
  // ---------------------------------------------------------------------

  /** The swapped-domain rule of lines 43-54. */
  function SimpleReverse(rule: Rule, fromDomain: string, toDomain: string): RuleData {
    RuleData(RuleNameFromDomains(toDomain, fromDomain), rule.enabled,
             FromPrefix + Escape(toDomain) + FromSuffix, ToPrefix + fromDomain + ToSuffix,
             rule.priority)
  }

  // ---------------------------------------------------------------------
  // The reverse of any other rule
  // ---------------------------------------------------------------------

  /** `new Date().toISOString().slice(0, 19).replace(/[T:]/g, '-')`, given
      the ISO string of the current time. */
  function Stamp(iso: string): (r: string)
    ensures |r| == if |iso| < 19 then |iso| else 19
    ensures 'T' !in r && ':' !in r
    ensures forall i :: 0 <= i < |r| ==> r[i] == if iso[i] == 'T' || iso[i] == ':' then '-' else iso[i]
  {
    var head := if |iso| < 19 then iso else iso[..19];
    seq(|head|, i requires 0 <= i < |head| => if head[i] == 'T' || head[i] == ':' then '-' else head[i])
  }

  /** Lines 57-66: swap the two halves of `A → B`, or tag the name. */
  function AdvancedName(name: string, iso: string): string {
    var parts := Split(name, Arrow);
    if |parts| == 2 then parts[1] + Arrow + parts[0]
    else name + " (Reversed " + Stamp(iso) + ")"
  }

  /** A name `A → B` whose halves hold no arrow splits into exactly `[A, B]`. */
  lemma SplitArrowName(a: string, b: string)
    requires '→' !in a && '→' !in b
    ensures Split(a + Arrow + b, Arrow) == [a, b]
  {
    var s := a + Arrow + b;
    assert s[..|a|] == a && s[|a| + |Arrow|..] == b;
    assert OccursAt(s, Arrow, |a|) by { assert s[|a|..|a| + |Arrow|] == Arrow; }
    forall j | 0 <= j < |a| ensures !OccursAt(s, Arrow, j) {
      assert s[j + 1] != '→' by {
        if j + 1 < |a| { assert s[j + 1] == a[j + 1]; } else { assert s[j + 1] == Arrow[0]; }
      }
      assert s[j..j + |Arrow|][1] == s[j + 1];
    }
    assert IndexOf(s, Arrow) == Some(|a|);
    NoArrowIn(b);
  }

  /** A text without `→` holds no arrow separator. */
  lemma NoArrowIn(t: string)
    requires '→' !in t
    ensures forall j :: 0 <= j <= |t| ==> !OccursAt(t, Arrow, j)
  {
    forall j | 0 <= j <= |t| ensures !OccursAt(t, Arrow, j) {
      if j + |Arrow| <= |t| {
        assert t[j..j + |Arrow|][1] == t[j + 1];
        assert t[j + 1] in t;
      }
    }
  }

  /** Swapping the halves of `A → B` twice restores the name. */
  lemma AdvancedNameSwapsBack(a: string, b: string, iso1: string, iso2: string)
    requires '→' !in a && '→' !in b
    ensures AdvancedName(a + Arrow + b, iso1) == b + Arrow + a
    ensures AdvancedName(AdvancedName(a + Arrow + b, iso1), iso2) == a + Arrow + b
  {
    SplitArrowName(a, b);
    SplitArrowName(b, a);
  }

  /** A name without the arrow separator is tagged with the time. */
  lemma AdvancedNameTagged(name: string, iso: string)
    requires '→' !in name
    ensures AdvancedName(name, iso) == name + " (Reversed " + Stamp(iso) + ")"
  {
    NoArrowIn(name);
  }

  /** The length of the run of decimal digits that starts `s`. */
  function DigitRun(s: string): (n: nat)
    ensures n <= |s|
    ensures forall i :: 0 <= i < n ==> IsDigit(s[i])
    ensures n < |s| ==> !IsDigit(s[n])
    decreases |s|
  {
    if |s| > 0 && IsDigit(s[0]) then 1 + DigitRun(s[1..]) else 0
  }

  lemma {:induction false} DigitRunOfDigits(digits: string, rest: string)
    requires forall i :: 0 <= i < |digits| ==> IsDigit(digits[i])
    requires rest == [] || !IsDigit(rest[0])
    ensures DigitRun(digits + rest) == |digits|
    decreases |digits|
  {
    if |digits| > 0 {
      DigitRunOfDigits(digits[1..], rest);
      assert (digits + rest)[1..] == digits[1..] + rest;
    } else {
      assert digits + rest == rest;
    }
  }

  /** `s` starts with a backreference `$n`. */
  predicate StartsWithRef(s: string) {
    |s| >= 2 && s[0] == '$' && IsDigit(s[1])
  }

  /** `s.replace(/\$(\d+)/g, '___$$$1___')`: each `$n` becomes `___$n___`. */
  function Mark(s: string): string
    decreases |s|
  {
    if |s| == 0 then ""
    else if StartsWithRef(s) then
      var t := s[1..];
      var n := DigitRun(t);
      "___$" + t[..n] + "___" + Mark(t[n..])
    else [s[0]] + Mark(s[1..])
  }

  /** `s` starts with a mark `___$n___` as the second regular expression sees it. */
  predicate StartsWithMark(s: string) {
    |s| >= 4 && s[..4] == "___$" && DigitRun(s[4..]) > 0
    && |s| >= 4 + DigitRun(s[4..]) + 3 && s[4 + DigitRun(s[4..])..4 + DigitRun(s[4..]) + 3] == "___"
  }

  /** `s.replace(/___\$(\d+)___/g, '$$$1')`: each `___$n___` becomes `$n`. */
  function Unmark(s: string): string
    decreases |s|
  {
    if |s| == 0 then ""
    else if StartsWithMark(s) then
      var n := DigitRun(s[4..]);
      "$" + s[4..4 + n] + Unmark(s[4 + n + 3..])
    else [s[0]] + Unmark(s[1..])
  }

  /** The first character of a marked text. */
  lemma MarkHead(u: string)
    requires u != ""
    ensures Mark(u) != [] && Mark(u)[0] == if StartsWithRef(u) then '_' else u[0]
  {
  }

  /** A marked text never starts with `$n`, `_$n` or `__$n`: in it every `$n`
      stands right after the three underscores of its own mark. */
  lemma {:induction false} MarkedRefsArePrefixed(t: string, j: nat)
    requires j <= 2
    ensures !(|Mark(t)| >= j + 2 && (forall i :: 0 <= i < j ==> Mark(t)[i] == '_')
              && Mark(t)[j] == '$' && IsDigit(Mark(t)[j + 1]))
    decreases |t|
  {
    if |t| > 0 && !StartsWithRef(t) {
      var m := Mark(t);
      assert m == [t[0]] + Mark(t[1..]);
      if j == 0 {
        if t[0] == '$' && |t| > 1 {
          MarkHead(t[1..]);
          assert m[1] == Mark(t[1..])[0];
        }
      } else {
        MarkedRefsArePrefixed(t[1..], j - 1);
        if |m| >= j + 2 && (forall i :: 0 <= i < j ==> m[i] == '_') {
          forall i | 0 <= i < j - 1 ensures Mark(t[1..])[i] == '_' {
            assert m[i + 1] == '_';
          }
          assert m[j] == Mark(t[1..])[j - 1] && m[j + 1] == Mark(t[1..])[j];
        }
      }
    }
  }

  /** Whatever character comes first, a character followed by a marked text
      does not start a mark. */
  lemma PlainHeadNoMark(c: char, t: string)
    ensures !StartsWithMark([c] + Mark(t))
  {
    var m := [c] + Mark(t);
    MarkedRefsArePrefixed(t, 2);
    if |m| >= 5 && m[..4] == "___$" {
      assert Mark(t)[0] == m[1] && Mark(t)[1] == m[2] && Mark(t)[2] == m[3];
      assert !IsDigit(Mark(t)[3]);
      assert m[4..][0] == Mark(t)[3];
    }
  }

  /** A mark `___$n___` unmarks to `$n`. */
  lemma UnmarkMarked(digits: string, x: string)
    requires |digits| > 0 && forall i :: 0 <= i < |digits| ==> IsDigit(digits[i])
    ensures Unmark("___$" + digits + "___" + x) == "$" + digits + Unmark(x)
  {
    var m := "___$" + digits + "___" + x;
    var n := |digits|;
    assert m[4..] == digits + ("___" + x);
    DigitRunOfDigits(digits, "___" + x);
    assert m[..4] == "___$";
    assert m[4 + n..4 + n + 3] == "___";
    assert StartsWithMark(m);
    assert m[4..4 + n] == digits;
    assert m[4 + n + 3..] == x;
  }

  /** Marking the backreferences and unmarking them again gives back the
      text, so on the advanced path the new from-pattern is the old
      to-pattern, character for character. */
  lemma {:induction false} UnmarkMark(s: string)
    ensures Unmark(Mark(s)) == s
    decreases |s|
  {
    if |s| > 0 {
      if StartsWithRef(s) {
        UnmarkMark(AfterRef(s));
        UnmarkMarkRef(s);
      } else {
        UnmarkMark(s[1..]);
        UnmarkMarkPlain(s);
      }
    }
  }

  /** The text after the `$n` that starts `s`. */
  function AfterRef(s: string): (r: string)
    requires StartsWithRef(s)
    ensures |r| < |s|
  {
    s[1..][DigitRun(s[1..])..]
  }

  /** The step of `UnmarkMark` for a text that starts with `$n`. */
  lemma UnmarkMarkRef(s: string)
    requires StartsWithRef(s)
    requires Unmark(Mark(AfterRef(s))) == AfterRef(s)
    ensures Unmark(Mark(s)) == s
  {
    var digits := s[1..][..DigitRun(s[1..])];
    MarkAtRef(s);
    UnmarkMarked(digits, Mark(AfterRef(s)));
    RefSplits(s);
  }

  /** A text that starts with `$n` is `$`, its digits and what follows them. */
  lemma RefSplits(s: string)
    requires StartsWithRef(s)
    ensures |s[1..][..DigitRun(s[1..])]| > 0
    ensures forall i :: 0 <= i < |s[1..][..DigitRun(s[1..])]| ==> IsDigit(s[1..][..DigitRun(s[1..])][i])
    ensures s == "$" + s[1..][..DigitRun(s[1..])] + AfterRef(s)
  {
    var t := s[1..];
    var n := DigitRun(t);
    assert t == t[..n] + t[n..];
    assert s == [s[0]] + t;
  }

  /** One step of `Mark` on a text that starts with `$n`. */
  lemma MarkAtRef(s: string)
    requires StartsWithRef(s)
    ensures Mark(s) == "___$" + s[1..][..DigitRun(s[1..])] + "___" + Mark(AfterRef(s))
  {
  }

  /** The step of `UnmarkMark` for a text that does not start with `$n`. */
  lemma UnmarkMarkPlain(s: string)
    requires |s| > 0 && !StartsWithRef(s)
    requires Unmark(Mark(s[1..])) == s[1..]
    ensures Unmark(Mark(s)) == s
  {
    var m := Mark(s);
    assert m == [s[0]] + Mark(s[1..]);
    PlainHeadNoMark(s[0], s[1..]);
    assert m[1..] == Mark(s[1..]);
    assert s == [s[0]] + s[1..];
  }

  /** `s.replace(/\(([^)]+)\)/g, '$$$1')`: each leftmost `(X)` with a
      non-empty `X` free of `)` becomes `$X`, the group's text (not its number). */
  function GroupsToRefs(s: string): string
    decreases |s|
  {
    if |s| == 0 then ""
    else if s[0] == '(' && IndexOf(s[1..], ")").Some? && IndexOf(s[1..], ")").value > 0 then
      var k := IndexOf(s[1..], ")").value;
      "$" + s[1..1 + k] + GroupsToRefs(s[1 + k + 1..])
    else [s[0]] + GroupsToRefs(s[1..])
  }

  /** Text without `(` passes through unchanged. */
  lemma {:induction false} GroupsToRefsPrefix(a: string, rest: string)
    requires '(' !in a
    ensures GroupsToRefs(a + rest) == a + GroupsToRefs(rest)
    decreases |a|
  {
    if |a| == 0 {
      assert a + rest == rest;
    } else {
      var s, tail := a + rest, a[1..];
      PlainPrefixSplits(a, rest);
      PlainHeadCopied(s);
      GroupsToRefsPrefix(tail, rest);
      calc {
        GroupsToRefs(s);
        [a[0]] + GroupsToRefs(tail + rest);
        [a[0]] + (tail + GroupsToRefs(rest));
        { assert a == [a[0]] + tail; }
        a + GroupsToRefs(rest);
      }
    }
  }

  /** Peeling the first character off text without `(`. */
  lemma PlainPrefixSplits(a: string, rest: string)
    requires |a| > 0 && '(' !in a
    ensures (a + rest)[0] == a[0] != '('
    ensures (a + rest)[1..] == a[1..] + rest
    ensures '(' !in a[1..]
  {
    assert a[0] in a;
    assert forall c :: c in a[1..] ==> c in a;
  }

  /** A first character other than `(` is copied. */
  lemma PlainHeadCopied(s: string)
    requires |s| > 0 && s[0] != '('
    ensures GroupsToRefs(s) == [s[0]] + GroupsToRefs(s[1..])
  {
  }

  /** A pattern containing no `(` is unchanged. */
  lemma NoGroupUnchanged(s: string)
    requires '(' !in s
    ensures GroupsToRefs(s) == s
  {
    GroupsToRefsPrefix(s, "");
    assert s + "" == s;
  }

  /** After a `(`-free prefix, a group `(X)` becomes `$X`. */
  lemma GroupBecomesRef(a: string, x: string, rest: string)
    requires '(' !in a && x != "" && ')' !in x
    ensures GroupsToRefs(a + "(" + x + ")" + rest) == a + "$" + x + GroupsToRefs(rest)
  {
    var g := "(" + x + ")" + rest;
    assert a + "(" + x + ")" + rest == a + g;
    GroupsToRefsPrefix(a, g);
    GroupAtFront(x, rest);
  }

  /** A group at the front becomes `$X`. */
  lemma GroupAtFront(x: string, rest: string)
    requires x != "" && ')' !in x
    ensures GroupsToRefs("(" + x + ")" + rest) == "$" + x + GroupsToRefs(rest)
  {
    var g := "(" + x + ")" + rest;
    FirstClose(x, rest);
    assert g[1..] == x + ")" + rest;
    assert g[0] == '(';
    assert g[1..1 + |x|] == x && g[1 + |x| + 1..] == rest;
  }

  /** The first `)` after a `)`-free text is the one right after it. */
  lemma FirstClose(x: string, rest: string)
    requires ')' !in x
    ensures IndexOf(x + ")" + rest, ")") == Some(|x|)
  {
    var t := x + ")" + rest;
    assert t[|x|..|x| + 1] == ")";
    forall j | 0 <= j < |x| ensures !OccursAt(t, ")", j) {
      assert t[j..j + 1][0] == t[j] == x[j];
      assert x[j] in x;
    }
    IndexOfIs(t, ")", |x|);
  }

  /** The advanced path of lines 56-80. */
  function AdvancedReverse(rule: Rule, iso: string): RuleData {
    RuleData(AdvancedName(rule.name, iso), rule.enabled,
             Unmark(Mark(rule.toPattern)), GroupsToRefs(rule.fromPattern), rule.priority)
  }

  // ---------------------------------------------------------------------
  // createReverseRule
  // ---------------------------------------------------------------------

  /** `createReverseRule(rule)`, with the current time as an ISO string. The
      result has no id; priority and enabled flag are copied. */
  function CreateReverseRule(rule: Rule, iso: string): (r: RuleData)
    ensures r.priority == rule.priority && r.enabled == rule.enabled
  {
    match IsSimpleDomainPattern(rule.fromPattern, rule.toPattern)
    case Simple(fromDomain, toDomain) => SimpleReverse(rule, fromDomain, toDomain)
    case NotSimple => AdvancedReverse(rule, iso)
  }

  /** The reverse of a simple rule `D → T` is the simple rule `T → unescape(D)`. */
  lemma ReverseOfSimpleIsSimple(rule: Rule, iso: string)
    requires IsSimpleDomainPattern(rule.fromPattern, rule.toPattern).Simple?
    ensures var s := IsSimpleDomainPattern(rule.fromPattern, rule.toPattern);
            var r := CreateReverseRule(rule, iso);
            && r.name == s.toDomain + Arrow + s.fromDomain
            && r.fromPattern == FromPrefix + Escape(s.toDomain) + FromSuffix
            && r.toPattern == ToPrefix + s.fromDomain + ToSuffix
            && IsSimpleDomainPattern(r.fromPattern, r.toPattern) == Simple(s.toDomain, s.fromDomain)
  {
    var s := IsSimpleDomainPattern(rule.fromPattern, rule.toPattern);
    EscapingKeepsDomainText(s.toDomain);
    SimpleShapesRecognised(Escape(s.toDomain), s.fromDomain);
    UnescapeEscape(s.toDomain);
  }

  /** Reversing a simple rule whose domain is written with escaped dots twice
      restores its patterns, priority and flag; the name becomes `d → t`. */
  lemma DoubleReverseSimple(rule: Rule, d: string, t: string, iso1: string, iso2: string)
    requires IsDomainText(d) && IsDomainText(t)
    requires rule.fromPattern == FromPrefix + Escape(d) + FromSuffix
    requires rule.toPattern == ToPrefix + t + ToSuffix
    ensures var twice := CreateReverseRule(CreateReverseRule(rule, iso1).WithId(rule.id), iso2);
            && twice.fromPattern == rule.fromPattern && twice.toPattern == rule.toPattern
            && twice.priority == rule.priority && twice.enabled == rule.enabled
            && twice.name == d + Arrow + t
  {
    EscapingKeepsDomainText(d);
    SimpleShapesRecognised(Escape(d), t);
    UnescapeEscape(d);
    ReverseOfSimpleIsSimple(rule, iso1);
    ReverseOfSimpleIsSimple(CreateReverseRule(rule, iso1).WithId(rule.id), iso2);
  }

  /** On the advanced path the new from-pattern is the old to-pattern and the
      new to-pattern is the old from-pattern with groups turned into `$X`. */
  lemma AdvancedReverseTransposes(rule: Rule, iso: string)
    requires IsSimpleDomainPattern(rule.fromPattern, rule.toPattern).NotSimple?
    ensures var r := CreateReverseRule(rule, iso);
            && r.fromPattern == rule.toPattern
            && r.toPattern == GroupsToRefs(rule.fromPattern)
            && r.name == AdvancedName(rule.name, iso)
  {
    UnmarkMark(rule.toPattern);
  }
}
