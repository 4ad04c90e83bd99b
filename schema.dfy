/**
 * The schema of the configuration document: how the organizer's rule set is
 * written into it (`save_state`) and read back from it (`__init__`).
 *
 * Decoding is strict: each field must have exactly the JSON shape that
 * encoding produces, so that decoding and encoding are inverse to each other.
 */
module Schema {
  import opened Wrappers
  import opened Dicts
  import opened Json
  import opened Classification

  const ExtensionMapKey := "extension_map"
  const EnabledCategoriesKey := "enabled_categories"
  const CustomRulesKey := "custom_rules"
  const EnableUnsortedKey := "enable_unsorted"

  function EncodeStrings(xs: seq<string>): (r: seq<JVal>)
    ensures |r| == |xs|
  {
    seq(|xs|, i requires 0 <= i < |xs| => JStr(xs[i]))
  }

  function DecodeStrings(items: seq<JVal>): Option<seq<string>> {
    if forall i :: 0 <= i < |items| ==> items[i].JStr? then
      Some(seq(|items|, i requires 0 <= i < |items| => items[i].s))
    else None
  }

  lemma StringsRoundTrip(xs: seq<string>, items: seq<JVal>)
    ensures DecodeStrings(EncodeStrings(xs)) == Some(xs)
    ensures DecodeStrings(items).Some? ==> EncodeStrings(DecodeStrings(items).value) == items
  {
    var e := EncodeStrings(xs);
    assert forall i :: 0 <= i < |e| ==> e[i].JStr? && e[i].s == xs[i];
    assert seq(|e|, i requires 0 <= i < |e| => e[i].s) == xs;
  }

  /** A category's extension list as a JSON list of strings. */
  function EncodeExtensions(xs: seq<string>): JVal {
    JList(EncodeStrings(xs))
  }

  function EncodeFlag(b: bool): JVal {
    JBool(b)
  }

  function EncodeCategories(m: Dict<seq<string>>): Dict<JVal> {
    MapValues(m, EncodeExtensions)
  }

  function EncodeFlags(m: Dict<bool>): Dict<JVal> {
    MapValues(m, EncodeFlag)
  }

  /** The category table held by a JSON object whose values are all lists of strings. */
  function DecodeCategories(f: Dict<JVal>): Option<Dict<seq<string>>> {
    if forall i :: 0 <= i < |f| ==> f[i].1.JList? && DecodeStrings(f[i].1.items).Some? then
      Some(seq(|f|, i requires 0 <= i < |f| => (f[i].0, DecodeStrings(f[i].1.items).value)))
    else None
  }

  /** The flag table held by a JSON object whose values are all booleans. */
  function DecodeFlags(f: Dict<JVal>): Option<Dict<bool>> {
    if forall i :: 0 <= i < |f| ==> f[i].1.JBool? then
      Some(seq(|f|, i requires 0 <= i < |f| => (f[i].0, f[i].1.b)))
    else None
  }

  /** Decoding the categories undoes encoding them. */
  lemma CategoriesRoundTrip(m: Dict<seq<string>>)
    ensures DecodeCategories(EncodeCategories(m)) == Some(m)
  {
    var e := EncodeCategories(m);
    forall i | 0 <= i < |e|
      ensures e[i].1.JList? && DecodeStrings(e[i].1.items) == Some(m[i].1)
    {
      StringsRoundTrip(m[i].1, []);
    }
    assert seq(|e|, i requires 0 <= i < |e| => (e[i].0, DecodeStrings(e[i].1.items).value)) == m;
  }

  /** Only encodings decode. */
  lemma CategoriesExact(f: Dict<JVal>)
    requires DecodeCategories(f).Some?
    ensures EncodeCategories(DecodeCategories(f).value) == f
  {
    var m := DecodeCategories(f).value;
    forall i | 0 <= i < |f|
      ensures EncodeExtensions(m[i].1) == f[i].1
    {
      StringsRoundTrip([], f[i].1.items);
    }
  }

  lemma FlagsRoundTrip(m: Dict<bool>)
    ensures DecodeFlags(EncodeFlags(m)) == Some(m)
  {
    var e := EncodeFlags(m);
    assert forall i :: 0 <= i < |e| ==> e[i] == (m[i].0, JBool(m[i].1));
    assert seq(|e|, i requires 0 <= i < |e| => (e[i].0, e[i].1.b)) == m;
  }

  lemma FlagsExact(f: Dict<JVal>)
    requires DecodeFlags(f).Some?
    ensures EncodeFlags(DecodeFlags(f).value) == f
  {
  }

  /** A rule as the object `{"keyword": ..., "target_folder": ...}`. */
  function EncodeRule(r: Rule): JVal {
    JObj([("keyword", JStr(r.keyword)), ("target_folder", JStr(r.targetFolder))])
  }

  function DecodeRule(v: JVal): Option<Rule> {
    match v
    case JObj(f) =>
      if |f| == 2 && f[0].0 == "keyword" && f[1].0 == "target_folder" && f[0].1.JStr? && f[1].1.JStr?
      then Some(Rule(f[0].1.s, f[1].1.s))
      else None
    case _ => None
  }

  function EncodeRules(rules: seq<Rule>): (r: seq<JVal>)
    ensures |r| == |rules|
  {
    seq(|rules|, i requires 0 <= i < |rules| => EncodeRule(rules[i]))
  }

  function DecodeRules(items: seq<JVal>): Option<seq<Rule>> {
    if forall i :: 0 <= i < |items| ==> DecodeRule(items[i]).Some? then
      Some(seq(|items|, i requires 0 <= i < |items| => DecodeRule(items[i]).value))
    else None
  }

  lemma RulesRoundTrip(rules: seq<Rule>, items: seq<JVal>)
    ensures DecodeRules(EncodeRules(rules)) == Some(rules)
    ensures DecodeRules(items).Some? ==> EncodeRules(DecodeRules(items).value) == items
  {
    var e := EncodeRules(rules);
    assert forall i :: 0 <= i < |e| ==> DecodeRule(e[i]) == Some(rules[i]);
    assert seq(|e|, i requires 0 <= i < |e| => DecodeRule(e[i]).value) == rules;
    if DecodeRules(items).Some? {
      var rs := DecodeRules(items).value;
      forall i | 0 <= i < |items|
        ensures EncodeRule(rs[i]) == items[i]
      {
        var f := items[i].fields;
        assert f == [f[0], f[1]];
      }
    }
  }

  /** `config.get("enable_unsorted", False)`, which must be a boolean. */
  function UnsortedFlag(config: Dict<JVal>): (r: Option<bool>)
    ensures Get(config, EnableUnsortedKey).None? ==> r == Some(false)
    ensures Get(config, EnableUnsortedKey).Some? && Get(config, EnableUnsortedKey).value.JBool? ==>
      r == Some(Get(config, EnableUnsortedKey).value.b)
    ensures Get(config, EnableUnsortedKey).Some? && !Get(config, EnableUnsortedKey).value.JBool? ==> r.None?
  {
    var v: Option<JVal> := Get(config, EnableUnsortedKey);
    match v
    case None => Some(false)
    case Some(JBool(b)) => Some(b)
    case Some(_) => None
  }

  /** The dictionaries of a rule set have no repeated key. */
  predicate WellKeyed(rs: RuleSet) {
    Unique(rs.extensionMap) && Unique(rs.enabledCategories)
  }

  /** The rule set held by a configuration document, if it has the schema's shape. */
  function DecodeRuleSet(config: Dict<JVal>): (r: Option<RuleSet>)
    ensures r.Some? ==> WellKeyed(r.value)
  {
    var em: Option<JVal> := Get(config, ExtensionMapKey);
    var en: Option<JVal> := Get(config, EnabledCategoriesKey);
    var cr: Option<JVal> := Get(config, CustomRulesKey);
    match (em, en, cr, UnsortedFlag(config))
    case (Some(JObj(em)), Some(JObj(en)), Some(JList(cr)), Some(unsorted)) =>
      (match (DecodeCategories(em), DecodeFlags(en), DecodeRules(cr))
       case (Some(m), Some(e), Some(rules)) =>
         if Unique(m) && Unique(e) then Some(RuleSet(m, e, rules, unsorted)) else None
       case _ => None)
    case _ => None
  }

  /** The four rule-set fields as document entries, in the order `save_state` assigns them. */
  function Encoded(rs: RuleSet): (r: Dict<JVal>)
    ensures Keys(r) == [ExtensionMapKey, EnabledCategoriesKey, CustomRulesKey, EnableUnsortedKey]
    ensures Unique(r)
  {
    [(ExtensionMapKey, JObj(EncodeCategories(rs.extensionMap))),
     (EnabledCategoriesKey, JObj(EncodeFlags(rs.enabledCategories))),
     (CustomRulesKey, JList(EncodeRules(rs.customRules))),
     (EnableUnsortedKey, JBool(rs.enableUnsorted))]
  }

  /**
   * `save_state`: the four rule-set fields assigned into the document, one
   * after the other.  The document keeps its keys in their order and gains
   * the schema keys it lacked, at the end.
   */
  function Store(config: Dict<JVal>, rs: RuleSet): (r: Dict<JVal>)
    ensures forall k :: k in Keys(r) <==>
      k in Keys(config) || k == ExtensionMapKey || k == EnabledCategoriesKey || k == CustomRulesKey || k == EnableUnsortedKey
    ensures Keys(config) <= Keys(r)
  {
    Update(config, Encoded(rs))
  }

  lemma StoreUnique(config: Dict<JVal>, rs: RuleSet)
    requires Unique(config)
    ensures Unique(Store(config, rs))
  {
  }

  /** Storing a well-keyed rule set into a unique document gives a unique document that decodes to it. */
  lemma StoreDecodes(config: Dict<JVal>, rs: RuleSet)
    requires Unique(config) && WellKeyed(rs)
    ensures Unique(Store(config, rs))
    ensures DecodeRuleSet(Store(config, rs)) == Some(rs)
  {
    StoreUnique(config, rs);
    StoreGet(config, rs, ExtensionMapKey);
    StoreGet(config, rs, EnabledCategoriesKey);
    StoreGet(config, rs, CustomRulesKey);
    StoreGet(config, rs, EnableUnsortedKey);
    EncodedDecodes(Store(config, rs), rs);
  }

  /** What each key of a stored document holds. */
  lemma StoreGet(config: Dict<JVal>, rs: RuleSet, k: string)
    ensures Get(Store(config, rs), k) ==
      if k == EnableUnsortedKey then Some(JBool(rs.enableUnsorted))
      else if k == CustomRulesKey then Some(JList(EncodeRules(rs.customRules)))
      else if k == EnabledCategoriesKey then Some(JObj(EncodeFlags(rs.enabledCategories)))
      else if k == ExtensionMapKey then Some(JObj(EncodeCategories(rs.extensionMap)))
      else Get(config, k)
  {
    var e := Encoded(rs);
    GetUpdate(config, e, k);
    GetAt(e, 0);
    GetAt(e, 1);
    GetAt(e, 2);
    GetAt(e, 3);
  }

  /** A document whose four schema keys hold the encoding of `rs` decodes to `rs`. */
  lemma EncodedDecodes(config: Dict<JVal>, rs: RuleSet)
    requires WellKeyed(rs)
    requires Get(config, ExtensionMapKey) == Some(JObj(EncodeCategories(rs.extensionMap)))
    requires Get(config, EnabledCategoriesKey) == Some(JObj(EncodeFlags(rs.enabledCategories)))
    requires Get(config, CustomRulesKey) == Some(JList(EncodeRules(rs.customRules)))
    requires Get(config, EnableUnsortedKey) == Some(JBool(rs.enableUnsorted))
    ensures DecodeRuleSet(config) == Some(rs)
  {
    CategoriesRoundTrip(rs.extensionMap);
    FlagsRoundTrip(rs.enabledCategories);
    RulesRoundTrip(rs.customRules, []);
  }

  /**
   * Storing a rule set and decoding the document gives the rule set back;
   * every other entry of the document (such as `user_settings`) is kept.
   */
  lemma StoreRoundTrip(config: Dict<JVal>, rs: RuleSet)
    requires WellKeyed(rs)
    ensures DecodeRuleSet(Store(config, rs)) == Some(rs)
    ensures forall k :: (k != ExtensionMapKey && k != EnabledCategoriesKey && k != CustomRulesKey &&
                         k != EnableUnsortedKey) ==> Get(Store(config, rs), k) == Get(config, k)
    ensures Unique(config) ==> Unique(Store(config, rs))
  {
    StoreGet(config, rs, ExtensionMapKey);
    StoreGet(config, rs, EnabledCategoriesKey);
    StoreGet(config, rs, CustomRulesKey);
    StoreGet(config, rs, EnableUnsortedKey);
    EncodedDecodes(Store(config, rs), rs);
    forall k | k != ExtensionMapKey && k != EnabledCategoriesKey && k != CustomRulesKey && k != EnableUnsortedKey
      ensures Get(Store(config, rs), k) == Get(config, k)
    {
      StoreGet(config, rs, k);
    }
  }

  /**
   * A document that decodes holds exactly the encoding of what it decodes
   * to under each schema key it has; only `enable_unsorted` may be missing.
   */
  lemma DecodeExact(config: Dict<JVal>)
    requires DecodeRuleSet(config).Some?
    ensures var rs := DecodeRuleSet(config).value;
      && Get(config, ExtensionMapKey) == Some(JObj(EncodeCategories(rs.extensionMap)))
      && Get(config, EnabledCategoriesKey) == Some(JObj(EncodeFlags(rs.enabledCategories)))
      && Get(config, CustomRulesKey) == Some(JList(EncodeRules(rs.customRules)))
      && (Get(config, EnableUnsortedKey).Some? ==> Get(config, EnableUnsortedKey) == Some(JBool(rs.enableUnsorted)))
  {
    var em := Get(config, ExtensionMapKey).value.fields;
    var en := Get(config, EnabledCategoriesKey).value.fields;
    var cr := Get(config, CustomRulesKey).value.items;
    CategoriesExact(em);
    FlagsExact(en);
    RulesRoundTrip([], cr);
  }
}
