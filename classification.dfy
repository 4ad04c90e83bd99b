/**
 * The rule set of the organizer and the decision, for one file name, of the
 * folder the file goes to: custom keyword rules first, then the extension
 * categories in map order, then the "Unsorted" fallback.
 */
module Classification {
  import opened Wrappers
  import opened Dicts
  import opened Text

  /** One custom rule: files whose name contains `keyword` go to `targetFolder`. */
  datatype Rule = Rule(keyword: string, targetFolder: string)

  /** The four fields of the organizer that drive classification. */
  datatype RuleSet = RuleSet(
    extensionMap: Dict<seq<string>>,
    enabledCategories: Dict<bool>,
    customRules: seq<Rule>,
    enableUnsorted: bool)

  /** The folder name used when nothing else matched. */
  const Unsorted := "Unsorted"

  /** Python truthiness of `target_folder_name` (None and "" are false). */
  predicate Truthy(t: Option<string>): (b: bool)
    ensures !b <==> t == None || t == Some("")
  {
    t.Some? && t.value != ""
  }

  /** The lowercased keyword is a substring of the lowercased full file name. */
  predicate KeywordMatches(filename: string, rule: Rule): (b: bool)
    ensures b <==> exists i :: OccursAt(Lower(filename), Lower(rule.keyword), i)
    ensures rule.keyword == "" ==> b
  {
    Contains(Lower(filename), Lower(rule.keyword))
  }

  /** The index of the first rule, in list order, whose keyword matches. */
  function FirstRule(filename: string, rules: seq<Rule>): (r: Option<nat>)
    ensures r.Some? ==> r.value < |rules| && KeywordMatches(filename, rules[r.value])
    ensures r.Some? ==> forall j :: 0 <= j < r.value ==> !KeywordMatches(filename, rules[j])
    ensures r.None? <==> forall j :: 0 <= j < |rules| ==> !KeywordMatches(filename, rules[j])
  {
    if rules == [] then None
    else if KeywordMatches(filename, rules[0]) then Some(0)
    else match FirstRule(filename, rules[1..])
      case Some(i) => Some(i + 1)
      case None => None
  }

  /**
   * The lowercased extension of a file name: empty when the name has none,
   * otherwise a dot followed by dot-free lower-case text.
   */
  function ExtOf(filename: string): (r: string)
    ensures r == "" <==> SplitExt(filename).1 == ""
    ensures r != "" ==> r[0] == '.' && '.' !in r[1..]
    ensures Lower(r) == r
  {
    var ext := SplitExt(filename).1;
    LowerIdempotent(ext);
    assert forall i :: 1 <= i < |ext| ==> ext[1..][i - 1] == ext[i];
    assert forall i :: 1 <= i < |ext| ==> Lower(ext)[1..][i - 1] == Lower(ext)[i];
    Lower(ext)
  }

  /**
   * The category accepts the extension: it is enabled (a category missing
   * from the enabled map counts as disabled) and lists the extension.
   */
  predicate Accepts(ext: string, category: (string, seq<string>), enabled: Dict<bool>): (b: bool)
    ensures b <==> Get(enabled, category.0) == Some(true) && ext in category.1
  {
    GetOr(enabled, category.0, false) && ext in category.1
  }

  /** The index of the first category, in map order, that accepts `ext`. */
  function FirstCategory(ext: string, extensionMap: Dict<seq<string>>, enabled: Dict<bool>): (r: Option<nat>)
    ensures r.Some? ==> r.value < |extensionMap| && Accepts(ext, extensionMap[r.value], enabled)
    ensures r.Some? ==> forall j :: 0 <= j < r.value ==> !Accepts(ext, extensionMap[j], enabled)
    ensures r.None? <==> forall j :: 0 <= j < |extensionMap| ==> !Accepts(ext, extensionMap[j], enabled)
  {
    if extensionMap == [] then None
    else if Accepts(ext, extensionMap[0], enabled) then Some(0)
    else match FirstCategory(ext, extensionMap[1..], enabled)
      case Some(i) => Some(i + 1)
      case None => None
  }

  /** The target folder of the first matching rule, if any rule matches. */
  function RuleFolder(filename: string, rules: seq<Rule>): Option<string> {
    match FirstRule(filename, rules)
    case Some(i) => Some(rules[i].targetFolder)
    case None => None
  }

  /** The name of the first accepting category, if any. */
  function CategoryFolder(filename: string, rs: RuleSet): Option<string> {
    match FirstCategory(ExtOf(filename), rs.extensionMap, rs.enabledCategories)
    case Some(j) => Some(rs.extensionMap[j].0)
    case None => None
  }

  /**
   * The folder a file goes to, or None when it stays where it is.  A stage
   * decides only when it yields a non-empty name; the first matching rule
   * stops the rule search even when its folder is empty.
   */
  function Classify(filename: string, rs: RuleSet): (r: Option<string>)
    ensures r.Some? ==> r.value != ""
  {
    var byRule := RuleFolder(filename, rs.customRules);
    if Truthy(byRule) then byRule
    else
      var byCategory := CategoryFolder(filename, rs);
      if Truthy(byCategory) then byCategory
      else if rs.enableUnsorted then Some(Unsorted)
      else None
  }

  /**
   * A custom rule wins: when rule `i` is the first whose keyword occurs in the
   * name and its folder is non-empty, that folder is chosen, whatever the
   * extension categories would say.
   */
  lemma CustomRuleWins(filename: string, rs: RuleSet, i: nat)
    requires i < |rs.customRules| && KeywordMatches(filename, rs.customRules[i])
    requires forall j :: 0 <= j < i ==> !KeywordMatches(filename, rs.customRules[j])
    requires rs.customRules[i].targetFolder != ""
    ensures Classify(filename, rs) == Some(rs.customRules[i].targetFolder)
  {
  }

  /** An invoice rule takes `invoice_march.pdf` to `Invoices`, whatever the categories say about `.pdf`. */
  lemma InvoiceExample(em: Dict<seq<string>>, en: Dict<bool>, unsorted: bool)
    ensures Classify("invoice_march.pdf", RuleSet(em, en, [Rule("invoice", "Invoices")], unsorted)) == Some("Invoices")
  {
    var filename := "invoice_march.pdf";
    assert Lower("invoice") == "invoice";
    assert Lower(filename)[..7] == "invoice";
    assert KeywordMatches(filename, Rule("invoice", "Invoices"));
    CustomRuleWins(filename, RuleSet(em, en, [Rule("invoice", "Invoices")], unsorted), 0);
  }

  /**
   * A first matching rule with an empty folder is falsy: classification goes
   * on with the extension stage exactly as if there were no custom rules, and
   * later rules that also match are not consulted.
   */
  lemma EmptyTargetFallsThrough(filename: string, rs: RuleSet, i: nat)
    requires i < |rs.customRules| && KeywordMatches(filename, rs.customRules[i])
    requires forall j :: 0 <= j < i ==> !KeywordMatches(filename, rs.customRules[j])
    requires rs.customRules[i].targetFolder == ""
    ensures Classify(filename, rs) == Classify(filename, rs.(customRules := []))
  {
  }

  /**
   * Extension match: when no rule decides, the first category in map order
   * that is enabled and lists the lowercased extension is chosen.
   */
  lemma ExtensionMatch(filename: string, rs: RuleSet, j: nat)
    requires !Truthy(RuleFolder(filename, rs.customRules))
    requires j < |rs.extensionMap| && Accepts(ExtOf(filename), rs.extensionMap[j], rs.enabledCategories)
    requires forall k :: 0 <= k < j ==> !Accepts(ExtOf(filename), rs.extensionMap[k], rs.enabledCategories)
    requires rs.extensionMap[j].0 != ""
    ensures Classify(filename, rs) == Some(rs.extensionMap[j].0)
  {
  }

  /**
   * The fallback: a file is left in place exactly when no rule and no
   * category decides and the Unsorted folder is disabled; when nothing
   * decides and it is enabled, the file goes to "Unsorted".
   */
  lemma UnsortedFallback(filename: string, rs: RuleSet)
    ensures Classify(filename, rs).None? <==>
            !Truthy(RuleFolder(filename, rs.customRules)) && !Truthy(CategoryFolder(filename, rs)) && !rs.enableUnsorted
    ensures !Truthy(RuleFolder(filename, rs.customRules)) && !Truthy(CategoryFolder(filename, rs)) && rs.enableUnsorted ==>
            Classify(filename, rs) == Some(Unsorted)
  {
  }

  /**
   * Every chosen folder is justified: it is the non-empty folder of the first
   * matching rule, or an enabled category listing the extension that no rule
   * overrode, or "Unsorted" with the fallback enabled.
   */
  lemma ClassifySound(filename: string, rs: RuleSet)
    requires Classify(filename, rs).Some?
    ensures var t := Classify(filename, rs).value;
      || (exists i :: 0 <= i < |rs.customRules| && KeywordMatches(filename, rs.customRules[i]) &&
                      rs.customRules[i].targetFolder == t)
      || (exists j :: 0 <= j < |rs.extensionMap| && rs.extensionMap[j].0 == t &&
                      GetOr(rs.enabledCategories, t, false) && ExtOf(filename) in rs.extensionMap[j].1)
      || (t == Unsorted && rs.enableUnsorted)
  {
    var t := Classify(filename, rs).value;
    var byRule := FirstRule(filename, rs.customRules);
    if byRule.Some? && rs.customRules[byRule.value].targetFolder != "" {
      assert KeywordMatches(filename, rs.customRules[byRule.value]);
    } else {
      var byCat := FirstCategory(ExtOf(filename), rs.extensionMap, rs.enabledCategories);
      if byCat.Some? && rs.extensionMap[byCat.value].0 != "" {
        assert Accepts(ExtOf(filename), rs.extensionMap[byCat.value], rs.enabledCategories);
      }
    }
  }

  /** The custom-rule loop of `organize_files`, left by `break` at the first match. */
  method FindRule(filename: string, rules: seq<Rule>) returns (folder: Option<string>)
    ensures folder == RuleFolder(filename, rules)
  {
    folder := None;
    var i := 0;
    while i < |rules|
      invariant 0 <= i <= |rules|
      invariant forall j :: 0 <= j < i ==> !KeywordMatches(filename, rules[j])
    {
      if KeywordMatches(filename, rules[i]) {
        folder := Some(rules[i].targetFolder);
        break;
      }
      i := i + 1;
    }
    ghost var r := FirstRule(filename, rules);
    if folder.Some? {
      assert r.Some? && r.value == i;
    }
  }

  /** The extension-category loop of `organize_files`, left by `break` at the first match. */
  method FindCategory(ext: string, extensionMap: Dict<seq<string>>, enabled: Dict<bool>) returns (folder: Option<string>)
    ensures folder == match FirstCategory(ext, extensionMap, enabled)
                      case Some(j) => Some(extensionMap[j].0)
                      case None => None
  {
    folder := None;
    var j := 0;
    while j < |extensionMap|
      invariant 0 <= j <= |extensionMap|
      invariant forall k :: 0 <= k < j ==> !Accepts(ext, extensionMap[k], enabled)
    {
      var (category, extensions) := extensionMap[j];
      if GetOr(enabled, category, false) && ext in extensions {
        folder := Some(category);
        break;
      }
      j := j + 1;
    }
    ghost var r := FirstCategory(ext, extensionMap, enabled);
    if folder.Some? {
      assert r.Some? && r.value == j;
    }
  }

  /**
   * `FindTarget` is the classification step of `organize_files` as written:
   * the rule loop, then the category loop on the lowercased extension, then
   * the fallback, with a mutable target name.
   */
  method FindTarget(filename: string, rs: RuleSet) returns (target: Option<string>)
    ensures target == Classify(filename, rs)
  {
    var folder := FindRule(filename, rs.customRules);
    if !Truthy(folder) {
      folder := FindCategory(ExtOf(filename), rs.extensionMap, rs.enabledCategories);
      assert folder == CategoryFolder(filename, rs);
    }
    if !Truthy(folder) && rs.enableUnsorted {
      folder := Some(Unsorted);
    }
    target := if Truthy(folder) then folder else None;
  }
}
