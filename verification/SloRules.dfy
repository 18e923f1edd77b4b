/**
 The recording rules and burn-rate alerts cmd/slogen generates from a catalogue
 (generate.go and generate_alerts.go): their names, and what alerts refer to.
*/
module SloRules {
  import opened GoStrings
  import opened Catalog
  import opened Windows
  import Checks = CatalogChecks
  import Case = CamelCase

  datatype Rule = Rule(
    record: string, expr: string, slo: string, window: string, owner: string, objective: Decimal)

  datatype Group = Group(name: string, rules: seq<Rule>)

  datatype RecordingWindow = RecordingWindow(suffix: string, expr: string)

  const RECORDING_WINDOWS := [
    RecordingWindow("ratio_rate5m", "5m"),
    RecordingWindow("ratio_rate1h", "1h"),
    RecordingWindow("ratio_rate6h", "6h"),
    RecordingWindow("ratio_rate30d", "30d")]

  function RatioExpr(s: Slo, window: string): string {
    "(" + RewriteWindow(s.sli.good, window) + ") / clamp_min((" + RewriteWindow(s.sli.valid, window) + "), 1)"
  }

  function RuleName(name: string, suffix: string): string {
    "slo:" + name + ":" + suffix
  }

  function RuleOf(s: Slo, k: nat): Rule
    requires k < 4
  {
    var w := RECORDING_WINDOWS[k];
    Rule(RuleName(s.name, w.suffix), RatioExpr(s, w.expr), s.name, w.expr, s.owner, s.objective)
  }

  function GroupOf(s: Slo): Group {
    Group("slo_" + s.name, [RuleOf(s, 0), RuleOf(s, 1), RuleOf(s, 2), RuleOf(s, 3)])
  }

  function Groups(slos: seq<Slo>): (r: seq<Group>)
    ensures |r| == |slos|
  {
    seq(|slos|, i requires 0 <= i < |slos| => GroupOf(slos[i]))
  }

  /** `renderRecordingRules`, up to the layout of the document. */
  method RenderRecordingRules(slos: seq<Slo>) returns (groups: seq<Group>)
    ensures groups == Groups(slos)
  {
    hide RatioExpr;
    groups := [];
    for i := 0 to |slos|
      invariant groups == Groups(slos)[..i]
    {
      var s := slos[i];
      var rules: seq<Rule> := [];
      for k := 0 to |RECORDING_WINDOWS|
        invariant rules == GroupOf(s).rules[..k]
      {
        var w := RECORDING_WINDOWS[k];
        rules := rules + [Rule(RuleName(s.name, w.suffix), RatioExpr(s, w.expr), s.name, w.expr, s.owner, s.objective)];
      }
      assert rules == GroupOf(s).rules;
      groups := groups + [Group("slo_" + s.name, rules)];
    }
  }

  /** An SLI ratio over a window: the good events by the valid ones, which count at least
      one, with every bracket form of the expressions over that window. */
  function SpelledRatio(s: Slo, window: string): string {
    "(" + Render(Pieces(s.sli.good), window) + ") / clamp_min((" + Render(Pieces(s.sli.valid), window) + "), 1)"
  }

  lemma RatioSpelled(s: Slo, window: string)
    requires Bracketless(window)
    ensures RatioExpr(s, window) == SpelledRatio(s, window)
  {
    hide RewriteWindow, Pieces, Render;
    OnePass(s.sli.good, window);
    OnePass(s.sli.valid, window);
  }

  function SpelledRule(s: Slo, suffix: string, window: string): Rule {
    Rule("slo:" + s.name + ":" + suffix, SpelledRatio(s, window), s.name, window, s.owner, s.objective)
  }

  /** The four rules of an SLO, spelled out. */
  lemma RulesSpelled(s: Slo)
    ensures GroupOf(s) == Group("slo_" + s.name, [
      SpelledRule(s, "ratio_rate5m", "5m"), SpelledRule(s, "ratio_rate1h", "1h"),
      SpelledRule(s, "ratio_rate6h", "6h"), SpelledRule(s, "ratio_rate30d", "30d")])
  {
    hide RatioExpr, SpelledRatio;
    WindowsPlain();
    RatioSpelled(s, "5m");
    RatioSpelled(s, "1h");
    RatioSpelled(s, "6h");
    RatioSpelled(s, "30d");
  }

  lemma WindowsPlain()
    ensures Bracketless("5m") && Bracketless("1h") && Bracketless("6h") && Bracketless("30d") && Bracketless("30m")
  {
  }

  // ---------------------------------------------------------------- rule names

  lemma NameFree(s: string)
    requires Checks.ValidName(s)
    ensures ':' !in s && Case.IsSnake(s) && Case.IsLower(s[0])
  {
  }

  /** A rule name tells its SLO and its window. */
  lemma RuleNameParts(a: string, x: string, b: string, y: string)
    requires ':' !in a && ':' !in b && RuleName(a, x) == RuleName(b, y)
    ensures a == b && x == y
  {
    var l, r := RuleName(a, x), RuleName(b, y);
    assert l[4..] == a + [':'] + x;
    assert r[4..] == b + [':'] + y;
    CutAt(a, ':', x);
    CutAt(b, ':', y);
  }

  /** All recording rules of a valid catalogue have names of their own. */
  lemma RuleNamesDistinct(c: Cat, i: nat, k: nat, j: nat, l: nat)
    requires Checks.ValidCatalog(c) && i < |c.slos| && j < |c.slos| && k < 4 && l < 4
    requires Groups(c.slos)[i].rules[k].record == Groups(c.slos)[j].rules[l].record
    ensures i == j && k == l
  {
    hide RatioExpr, RuleName, Checks.ValidSlo;
    var s, t := c.slos[i], c.slos[j];
    ValidNames(c, i);
    ValidNames(c, j);
    assert Groups(c.slos)[i].rules[k] == RuleOf(s, k) && Groups(c.slos)[j].rules[l] == RuleOf(t, l);
    RuleNameParts(s.name, RECORDING_WINDOWS[k].suffix, t.name, RECORDING_WINDOWS[l].suffix);
    SuffixesDiffer(k, l);
  }

  lemma ValidNames(c: Cat, i: nat)
    requires Checks.ValidCatalog(c) && i < |c.slos|
    ensures Checks.ValidName(c.slos[i].name) && ':' !in c.slos[i].name
  {
    assert c.slos[i] in c.slos;
    NameFree(c.slos[i].name);
  }

  lemma SuffixesDiffer(k: nat, l: nat)
    requires k < 4 && l < 4
    ensures k != l ==> RECORDING_WINDOWS[k].suffix != RECORDING_WINDOWS[l].suffix
    ensures k != l ==> RECORDING_WINDOWS[k].expr != RECORDING_WINDOWS[l].expr
  {
    assert "ratio_rate5m"[10] == '5' && "ratio_rate1h"[10] == '1';
    assert "ratio_rate6h"[10] == '6' && "ratio_rate30d"[10] == '3';
    assert "5m"[0] == '5' && "1h"[0] == '1' && "6h"[0] == '6' && "30d"[0] == '3';
  }

  // ---------------------------------------------------------------- alerts

  /** A ratio in an alert: a recorded series, or the expression itself. */
  datatype Ratio = Recorded(rule: string) | Inline(expr: string)

  /** The first recording window of that length, from `k` on; 4 if there is none. */
  function FindWindow(window: string, k: nat): (r: nat)
    requires k <= 4
    ensures r <= 4 && (r < 4 ==> RECORDING_WINDOWS[r].expr == window)
    decreases 4 - k
  {
    if k == 4 || RECORDING_WINDOWS[k].expr == window then k else FindWindow(window, k + 1)
  }

  function BurnRatio(s: Slo, window: string): Ratio {
    var k := FindWindow(window, 0);
    if k < 4 then Recorded(RuleName(s.name, RECORDING_WINDOWS[k].suffix)) else Inline(RatioExpr(s, window))
  }

  /** `burnRatioExpr` */
  method BurnRatioExpr(s: Slo, window: string) returns (r: Ratio)
    ensures r == BurnRatio(s, window)
  {
    hide RatioExpr;
    for k := 0 to |RECORDING_WINDOWS|
      invariant FindWindow(window, 0) == FindWindow(window, k)
    {
      var rw := RECORDING_WINDOWS[k];
      if rw.expr == window {
        return Recorded(RuleName(s.name, rw.suffix));
      }
    }
    return Inline(RatioExpr(s, window));
  }

  /** Some rule in the groups records `expr` under that name. */
  predicate Defines(groups: seq<Group>, name: string, expr: string) {
    exists i, k :: 0 <= i < |groups| && 0 <= k < |groups[i].rules| &&
      groups[i].rules[k].record == name && groups[i].rules[k].expr == expr
  }

  /** The expression a ratio stands for, given the recorded rules. */
  predicate Means(groups: seq<Group>, r: Ratio, expr: string) {
    match r
    case Recorded(name) => Defines(groups, name, expr)
    case Inline(e) => e == expr
  }

  /** Whatever the window, a ratio in an alert means the SLI ratio over that window and
      nothing else: a rule it refers to is defined in the same catalogue, once. */
  lemma RatiosResolve(c: Cat, i: nat, window: string, expr: string)
    requires Checks.ValidCatalog(c) && i < |c.slos|
    ensures Means(Groups(c.slos), BurnRatio(c.slos[i], window), expr) <==> expr == RatioExpr(c.slos[i], window)
  {
    hide RatioExpr, RuleName, Checks.ValidSlo, Checks.ValidCatalog;
    var s, groups, k := c.slos[i], Groups(c.slos), FindWindow(window, 0);
    if k < 4 {
      assert groups[i].rules[k] == RuleOf(s, k);
      var name := groups[i].rules[k].record;
      forall j, l | 0 <= j < |groups| && 0 <= l < |groups[j].rules| && groups[j].rules[l].record == name
        ensures groups[j].rules[l].expr == RatioExpr(s, window)
      {
        RuleNamesDistinct(c, j, l, i, k);
      }
    }
  }

  datatype Tier = Tier(name: string, severity: string, longWindow: string, shortWindow: string, sustain: string)

  const BURN_TIERS := [
    Tier("FastBurn", "page", "1h", "5m", "2m"),
    Tier("SlowBurn", "ticket", "6h", "30m", "15m")]

  datatype Alert = Alert(
    name: string, long: Ratio, short: Ratio, severity: string, slo: string, owner: string, sustain: string)

  datatype AlertGroup = AlertGroup(name: string, alerts: seq<Alert>)

  function AlertName(name: string, tier: string): string {
    "SLO" + Case.Camel(name, true) + tier
  }

  function AlertOf(s: Slo, k: nat): Alert
    requires k < 2
  {
    var t := BURN_TIERS[k];
    Alert(AlertName(s.name, t.name), BurnRatio(s, t.longWindow), BurnRatio(s, t.shortWindow),
          t.severity, s.name, s.owner, t.sustain)
  }

  function AlertGroupOf(s: Slo): AlertGroup {
    AlertGroup("slo_" + s.name + "_burn", [AlertOf(s, 0), AlertOf(s, 1)])
  }

  function AlertGroups(slos: seq<Slo>): (r: seq<AlertGroup>)
    ensures |r| == |slos|
  {
    seq(|slos|, i requires 0 <= i < |slos| => AlertGroupOf(slos[i]))
  }

  method EmitBurnAlert(s: Slo, t: Tier) returns (a: Alert)
    ensures a == Alert(AlertName(s.name, t.name), BurnRatio(s, t.longWindow), BurnRatio(s, t.shortWindow),
                       t.severity, s.name, s.owner, t.sustain)
  {
    hide BurnRatio;
    var long := BurnRatioExpr(s, t.longWindow);
    var short := BurnRatioExpr(s, t.shortWindow);
    var camel := Case.CamelCase(s.name);
    return Alert("SLO" + camel + t.name, long, short, t.severity, s.name, s.owner, t.sustain);
  }

  lemma NotRecorded()
    ensures FindWindow("5m", 0) == 0 && FindWindow("1h", 0) == 1 && FindWindow("6h", 0) == 2
    ensures FindWindow("30m", 0) == 4
  {
    assert "5m"[0] == '5' && "1h"[0] == '1' && "6h"[0] == '6' && "30m"[0] == '3' && "30m"[2] == 'm' && "30d"[2] == 'd';
    assert FindWindow("30m", 3) == 4;
    assert FindWindow("30m", 2) == 4;
    assert FindWindow("30m", 1) == 4;
    assert FindWindow("6h", 1) == 2;
  }

  lemma RuleNames(name: string)
    ensures RuleName(name, "ratio_rate1h") == "slo:" + name + ":ratio_rate1h"
    ensures RuleName(name, "ratio_rate5m") == "slo:" + name + ":ratio_rate5m"
    ensures RuleName(name, "ratio_rate6h") == "slo:" + name + ":ratio_rate6h"
  {
    assert ":" + "ratio_rate1h" == ":ratio_rate1h";
    assert ":" + "ratio_rate5m" == ":ratio_rate5m";
    assert ":" + "ratio_rate6h" == ":ratio_rate6h";
  }

  /** The two alerts of an SLO, spelled out: the fast one compares the recorded ratios of
      an hour and of five minutes, the slow one the recorded ratio of six hours and the
      ratio of thirty minutes, which no rule records. */
  lemma AlertsSpelled(s: Slo)
    ensures AlertGroupOf(s) == AlertGroup("slo_" + s.name + "_burn", [
      Alert("SLO" + Case.Camel(s.name, true) + "FastBurn",
            Recorded("slo:" + s.name + ":ratio_rate1h"), Recorded("slo:" + s.name + ":ratio_rate5m"),
            "page", s.name, s.owner, "2m"),
      Alert("SLO" + Case.Camel(s.name, true) + "SlowBurn",
            Recorded("slo:" + s.name + ":ratio_rate6h"), Inline(SpelledRatio(s, "30m")),
            "ticket", s.name, s.owner, "15m")])
  {
    hide RatioExpr, SpelledRatio, FindWindow, Case.Camel;
    NotRecorded();
    WindowsPlain();
    RatioSpelled(s, "30m");
    RuleNames(s.name);
  }

  /** `renderAlerts`, up to the layout of the document and the thresholds. */
  method RenderAlerts(slos: seq<Slo>) returns (groups: seq<AlertGroup>)
    ensures groups == AlertGroups(slos)
  {
    hide BurnRatio, AlertName;
    groups := [];
    for i := 0 to |slos|
      invariant groups == AlertGroups(slos)[..i]
    {
      var s := slos[i];
      var alerts: seq<Alert> := [];
      for k := 0 to |BURN_TIERS|
        invariant alerts == AlertGroupOf(s).alerts[..k]
      {
        var alert := EmitBurnAlert(s, BURN_TIERS[k]);
        alerts := alerts + [alert];
      }
      assert alerts == AlertGroupOf(s).alerts;
      groups := groups + [AlertGroup("slo_" + s.name + "_burn", alerts)];
    }
  }

  /** The alert name tells the tier and the camel-cased name. */
  lemma AlertNameParts(a: string, k: nat, b: string, l: nat)
    requires k < 2 && l < 2
    ensures AlertName(a, BURN_TIERS[k].name) == AlertName(b, BURN_TIERS[l].name)
      <==> Case.Camel(a, true) == Case.Camel(b, true) && k == l
  {
    var x, y := Case.Camel(a, true), Case.Camel(b, true);
    var l1, r1 := AlertName(a, BURN_TIERS[k].name), AlertName(b, BURN_TIERS[l].name);
    assert "FastBurn"[0] == 'F' && "SlowBurn"[0] == 'S';
    assert |BURN_TIERS[k].name| == 8 && |BURN_TIERS[l].name| == 8;
    assert l1[3..][..|x|] == x && l1[3 + |x|] == BURN_TIERS[k].name[0];
    assert r1[3..][..|y|] == y && r1[3 + |y|] == BURN_TIERS[l].name[0];
  }

  /** No two alerts of the catalogue share a name. */
  predicate AlertsDistinct(slos: seq<Slo>) {
    forall i, k, j, l :: 0 <= i < |slos| && 0 <= j < |slos| && 0 <= k < 2 && 0 <= l < 2 && (i != j || k != l) ==>
      AlertOf(slos[i], k).name != AlertOf(slos[j], l).name
  }

  /** The names still differ once the underscores that no letter follows are dropped. */
  predicate CoresDistinct(slos: seq<Slo>) {
    forall i, j :: 0 <= i < j < |slos| ==> Case.Core(slos[i].name) != Case.Core(slos[j].name)
  }

  /** The alert names of a valid catalogue are distinct exactly when its SLO names
      differ in more than underscores that no letter follows. */
  lemma AlertsDistinctIff(c: Cat)
    requires Checks.ValidCatalog(c)
    ensures AlertsDistinct(c.slos) <==> CoresDistinct(c.slos)
  {
    hide AlertName, BurnRatio, Checks.ValidSlo, Case.Core, Case.Camel;
    var slos := c.slos;
    forall i, k, j, l | 0 <= i < |slos| && 0 <= j < |slos| && 0 <= k < 2 && 0 <= l < 2
      ensures AlertOf(slos[i], k).name == AlertOf(slos[j], l).name
        <==> Case.Core(slos[i].name) == Case.Core(slos[j].name) && k == l
    {
      NamesCollide(c, i, k, j, l);
    }
    if AlertsDistinct(slos) {
      forall i, j | 0 <= i < j < |slos| ensures Case.Core(slos[i].name) != Case.Core(slos[j].name) {
        assert AlertOf(slos[i], 0).name != AlertOf(slos[j], 0).name;
      }
    }
  }

  lemma NamesCollide(c: Cat, i: nat, k: nat, j: nat, l: nat)
    requires Checks.ValidCatalog(c) && i < |c.slos| && j < |c.slos| && k < 2 && l < 2
    ensures AlertOf(c.slos[i], k).name == AlertOf(c.slos[j], l).name
      <==> Case.Core(c.slos[i].name) == Case.Core(c.slos[j].name) && k == l
  {
    hide AlertName, BurnRatio;
    ValidNames(c, i);
    ValidNames(c, j);
    NameFree(c.slos[i].name);
    NameFree(c.slos[j].name);
    Case.CollideIff(c.slos[i].name, c.slos[j].name);
    AlertNameParts(c.slos[i].name, k, c.slos[j].name, l);
  }

  /** It is enough that every part of every name starts with a letter. */
  lemma LetterPartsSuffice(c: Cat)
    requires Checks.ValidCatalog(c) && forall s :: s in c.slos ==> Case.LetterParts(s.name)
    ensures AlertsDistinct(c.slos)
  {
    hide Checks.ValidSlo, AlertsDistinct;
    forall i, j | 0 <= i < j < |c.slos| ensures Case.Core(c.slos[i].name) != Case.Core(c.slos[j].name) {
      assert c.slos[i] in c.slos && c.slos[j] in c.slos;
      Case.CoreWhole(c.slos[i].name);
      Case.CoreWhole(c.slos[j].name);
    }
    AlertsDistinctIff(c);
  }

  function Sample(name: string): Slo {
    Slo(name, "0123456789", Sli("good", "valid"), Decimal(false, 99, ""), "30d", "owner", [], 0)
  }

  /** A valid catalogue whose two names, `a_1` and `a1`, give the same alerts. */
  lemma DigitPartCollides()
    ensures Checks.ValidCatalog(Cat(1, [Sample("a_1"), Sample("a1")]))
    ensures !AlertsDistinct([Sample("a_1"), Sample("a1")])
  {
    hide Case.Core, AlertsDistinct, Checks.ValidSlo;
    var s, t := Sample("a_1"), Sample("a1");
    SampleValid("a_1");
    SampleValid("a1");
    assert s.name[1] == '_' && t.name[1] == '1';
    SameCore();
    AlertsDistinctIff(Cat(1, [s, t]));
    assert [s, t][0] == s && [s, t][1] == t;
  }

  lemma SameCore()
    ensures Case.Core("a_1") == Case.Core("a1")
  {
    assert "a_1"[1..] == "_1" && "_1"[1..] == "1" && "a1"[1..] == "1";
  }

  lemma SampleValid(name: string)
    requires Checks.ValidName(name)
    ensures Checks.ValidSlo(Sample(name))
  {
    hide Checks.ValidName;
    assert "30d"[..2] == "30" && "30d"[2] == 'd';
  }
}
