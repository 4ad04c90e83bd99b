/**
 * `ConfigManager`: the default configuration document and the merge applied
 * when a persisted document is loaded over it.
 */
module ConfigStore {
  import opened Wrappers
  import opened Dicts
  import opened Json
  import opened Classification
  import opened Schema

  /**
   * What reading `config.json` produced: no file, a file that could not be
   * read or decoded, or the parsed document.
   */
  datatype Stored = Absent | Corrupt | Parsed(doc: JVal)

  /** The default categories, in the order `DEFAULT_CONFIG` lists them. */
  const CategoryNames: seq<string> :=
    ["Images", "Documents", "Installers", "Audio", "Video", "Archives", "Developer"]

  /** The default extension list of each category, in the same order. */
  const CategoryExtensions: seq<seq<string>> := [
    [".jpg", ".jpeg", ".png", ".gif", ".bmp", ".svg", ".psd", ".ai", ".eps", ".webp", ".tiff", ".ico"],
    [".pdf", ".docx", ".doc", ".txt", ".xlsx", ".pptx", ".odt", ".rtf", ".csv", ".xls"],
    [".exe", ".msi", ".dmg", ".pkg", ".deb", ".rpm"],
    [".mp3", ".wav", ".flac", ".aac", ".ogg", ".m4a", ".wma"],
    [".mp4", ".mov", ".avi", ".mkv", ".flv", ".wmv", ".webm", ".m4v"],
    [".zip", ".rar", ".7z", ".tar", ".gz", ".bz2", ".xz"],
    [".py", ".js", ".json", ".html", ".css", ".java", ".cpp", ".ts", ".tsx", ".jsx", ".php", ".rb", ".go", ".rs"]
  ]

  const DefaultExtensionMap: Dict<seq<string>> := Zip(CategoryNames, CategoryExtensions)

  /** Every default category starts enabled. */
  const DefaultEnabledCategories: Dict<bool> := MapValues(DefaultExtensionMap, (_: seq<string>) => true)

  const DefaultRuleSet := RuleSet(DefaultExtensionMap, DefaultEnabledCategories, [], false)

  /**
   * The shape of `DEFAULT_CONFIG`, for given category tables: five keys in
   * this order, no custom rules, the unsorted folder off, and the user
   * settings.
   */
  function Document(em: Dict<seq<string>>, en: Dict<bool>, defaultPath: string): Dict<JVal> {
    [
      (ExtensionMapKey, JObj(EncodeCategories(em))),
      (EnabledCategoriesKey, JObj(EncodeFlags(en))),
      (CustomRulesKey, JList([])),
      (EnableUnsortedKey, JBool(false)),
      ("user_settings", JObj([
        ("default_path", JStr(defaultPath)),
        ("log_font_size", JInt(11)),
        ("auto_save", JBool(true))]))
    ]
  }

  /**
   * `DEFAULT_CONFIG`.  The default download folder depends on the host's
   * home directory, so it is a parameter.
   */
  function Defaults(defaultPath: string): (r: Dict<JVal>)
    ensures Keys(r) == [ExtensionMapKey, EnabledCategoriesKey, CustomRulesKey, EnableUnsortedKey, "user_settings"]
    ensures Unique(r)
  {
    Document(DefaultExtensionMap, DefaultEnabledCategories, defaultPath)
  }

  lemma DefaultCategoriesUnique()
    ensures Keys(DefaultExtensionMap) == CategoryNames && Keys(DefaultEnabledCategories) == CategoryNames
    ensures Unique(DefaultExtensionMap) && Unique(DefaultEnabledCategories)
  {
    assert Keys(DefaultExtensionMap) == CategoryNames;
  }

  /** A document of the default shape is unique and decodes to its tables. */
  lemma DocumentDecodes(em: Dict<seq<string>>, en: Dict<bool>, defaultPath: string)
    requires Unique(em) && Unique(en)
    ensures Unique(Document(em, en, defaultPath))
    ensures DecodeRuleSet(Document(em, en, defaultPath)) == Some(RuleSet(em, en, [], false))
  {
    var d := Document(em, en, defaultPath);
    DocumentGets(em, en, defaultPath);
    EncodedDecodes(d, RuleSet(em, en, [], false));
  }

  /** The default document is a well-formed dict holding the default rule set. */
  lemma DefaultsDecode(defaultPath: string)
    ensures Unique(Defaults(defaultPath))
    ensures DecodeRuleSet(Defaults(defaultPath)) == Some(DefaultRuleSet)
  {
    DefaultCategoriesUnique();
    DocumentDecodes(DefaultExtensionMap, DefaultEnabledCategories, defaultPath);
  }

  /**
   * The value a persisted entry leaves under its key: when both the current
   * and the persisted value are objects, the persisted entries are assigned
   * into the current object; otherwise the persisted value replaces it.
   */
  function Combine(current: Option<JVal>, persisted: JVal): (r: JVal)
    ensures !(current.Some? && current.value.JObj? && persisted.JObj?) ==> r == persisted
    ensures current.Some? && current.value.JObj? && persisted.JObj? ==>
      && r.JObj?
      && Keys(current.value.fields) <= Keys(r.fields)
      && (Unique(current.value.fields) ==> Unique(r.fields))
  {
    match (current, persisted)
    case (Some(JObj(base)), JObj(fields)) => JObj(Update(base, fields))
    case _ => persisted
  }

  /**
   * One iteration of the merge loop in `load_config`: `key` ends up with the
   * combination of its running and persisted values, at its old position or
   * appended when new, and every other key keeps its value.
   */
  function MergeEntry(config: Dict<JVal>, key: string, value: JVal): (r: Dict<JVal>)
    ensures Keys(r) == if key in Keys(config) then Keys(config) else Keys(config) + [key]
    ensures Get(r, key) == Some(Combine(Get(config, key), value))
    ensures forall k :: k != key ==> Get(r, k) == Get(config, k)
  {
    var v := Combine(Get(config, key), value);
    GetPut(config, key, v, key);
    PutOthers(config, key, v);
    Put(config, key, v)
  }

  /**
   * The persisted entries, in document order, merged over `config`.
   * Every key of either side is in the result, the keys of `config` keep
   * their order at the front, and each key holds the combination of its
   * two values.
   */
  function Merge(config: Dict<JVal>, data: Dict<JVal>): (r: Dict<JVal>)
    ensures forall k :: k in Keys(r) <==> k in Keys(config) || k in Keys(data)
    ensures |Keys(config)| <= |Keys(r)| && Keys(r)[..|Keys(config)|] == Keys(config)
    ensures Unique(config) ==> Unique(r)
    decreases data
  {
    if data == [] then config
    else
      var c' := MergeEntry(config, data[0].0, data[0].1);
      assert Keys(c')[..|Keys(config)|] == Keys(config);
      assert forall j :: j in Keys(data) <==> j == data[0].0 || j in Keys(data[1..]) by {
        assert Keys(data) == [data[0].0] + Keys(data[1..]);
      }
      Merge(c', data[1..])
  }

  /** Each key holds its default, or the combination with its persisted value. */
  lemma {:induction false} MergeGet(config: Dict<JVal>, data: Dict<JVal>, k: string)
    requires Unique(data)
    ensures Get(Merge(config, data), k) ==
      match Get(data, k)
      case Some(v) => Some(Combine(Get(config, k), v))
      case None => Get(config, k)
    decreases data
  {
    if data != [] {
      var c' := MergeEntry(config, data[0].0, data[0].1);
      MergeGet(c', data[1..], k);
      GetPut(config, data[0].0, Combine(Get(config, data[0].0), data[0].1), k);
    }
  }

  /** A key the persisted document holds ends up with the combination of both values. */
  lemma MergedAt(config: Dict<JVal>, data: Dict<JVal>, k: string, v: JVal)
    requires Unique(data) && Get(data, k) == Some(v)
    ensures Get(Merge(config, data), k) == Some(Combine(Get(config, k), v))
  {
    MergeGet(config, data, k);
  }

  lemma {:induction false} MergeSnoc(config: Dict<JVal>, data: Dict<JVal>, entry: (string, JVal))
    ensures Merge(config, data + [entry]) == MergeEntry(Merge(config, data), entry.0, entry.1)
    decreases data
  {
    if data != [] {
      assert (data + [entry])[1..] == data[1..] + [entry];
      MergeSnoc(MergeEntry(config, data[0].0, data[0].1), data[1..], entry);
    }
  }

  /** One more loop iteration extends the merged prefix of the document. */
  lemma MergeStep(config: Dict<JVal>, data: Dict<JVal>, i: nat)
    requires i < |data|
    ensures Merge(config, data[..i + 1]) == MergeEntry(Merge(config, data[..i]), data[i].0, data[i].1)
  {
    assert data[..i + 1] == data[..i] + [data[i]];
    MergeSnoc(config, data[..i], data[i]);
  }

  /** The configuration `load_config` returns for what was found on disk. */
  function Loaded(defaults: Dict<JVal>, stored: Stored): (r: Dict<JVal>)
    ensures Keys(defaults) <= Keys(r)
    ensures Unique(defaults) ==> Unique(r)
  {
    match stored
    case Parsed(JObj(data)) => Merge(defaults, data)
    case _ => defaults
  }

  /**
   * `load_config`.  A missing file is created holding the defaults; a file
   * that cannot be read, or whose content is not an object, is left as it is
   * and the defaults are used; otherwise the persisted entries are merged
   * over the defaults.  `written` is what the file holds afterwards.
   */
  method LoadConfig(defaults: Dict<JVal>, stored: Stored) returns (config: Dict<JVal>, written: Stored)
    ensures config == Loaded(defaults, stored)
    ensures written == if stored.Absent? then Parsed(JObj(defaults)) else stored
  {
    written := stored;
    config := defaults;
    match stored
    case Absent =>
      written := Parsed(JObj(defaults));
    case Corrupt =>
    case Parsed(doc) =>
      if doc.JObj? {
        var data := doc.fields;
        for i := 0 to |data|
          invariant config == Merge(defaults, data[..i])
        {
          MergeStep(defaults, data, i);
          var (key, value) := data[i];
          var current := Get(config, key);
          if value.JObj? && current.Some? && current.value.JObj? {
            config := Put(config, key, JObj(Update(current.value.fields, value.fields)));
          } else {
            config := Put(config, key, value);
          }
        }
        assert data[..|data|] == data;
      }
  }

  /**
   * What loading guarantees: every default key is present; a persisted key
   * the defaults lack is kept with its persisted value; a persisted value
   * that is not an object pair replaces the default whatever its type; and
   * for two objects the persisted children override and the default-only
   * children survive.
   */
  lemma {:induction false} LoadedEntries(defaults: Dict<JVal>, data: Dict<JVal>, k: string, c: string)
    requires Unique(data)
    ensures var r := Loaded(defaults, Parsed(JObj(data)));
      && (k in Keys(defaults) ==> k in Keys(r))
      && (k in Keys(data) && k !in Keys(defaults) ==> Get(r, k) == Get(data, k))
      && (Get(data, k).Some? && !(Get(data, k).value.JObj? && Get(defaults, k).Some? && Get(defaults, k).value.JObj?) ==>
            Get(r, k) == Get(data, k))
      && (Get(data, k).Some? && Get(data, k).value.JObj? && Get(defaults, k).Some? && Get(defaults, k).value.JObj? &&
          Unique(Get(data, k).value.fields) ==>
            Get(r, k).Some? && Get(r, k).value.JObj? &&
            Get(Get(r, k).value.fields, c) ==
              if c in Keys(Get(data, k).value.fields) then Get(Get(data, k).value.fields, c)
              else Get(Get(defaults, k).value.fields, c))
  {
    MergeGet(defaults, data, k);
    var dv: Option<JVal> := Get(data, k);
    if dv.Some? && dv.value.JObj? {
      var cur: Option<JVal> := Get(defaults, k);
      if cur.Some? && cur.value.JObj? && Unique(dv.value.fields) {
        GetUpdate(cur.value.fields, dv.value.fields, c);
      }
    }
  }

  /** Without a readable object document, loading yields exactly the defaults. */
  lemma LoadedFallback(defaults: Dict<JVal>, stored: Stored)
    requires stored.Absent? || stored.Corrupt? || (stored.Parsed? && !stored.doc.JObj?)
    ensures Loaded(defaults, stored) == defaults
  {
  }

  /** What the four schema keys of a default-shaped document hold. */
  lemma DocumentGets(em: Dict<seq<string>>, en: Dict<bool>, defaultPath: string)
    ensures var d := Document(em, en, defaultPath);
      && Get(d, ExtensionMapKey) == Some(JObj(EncodeCategories(em)))
      && Get(d, EnabledCategoriesKey) == Some(JObj(EncodeFlags(en)))
      && Get(d, CustomRulesKey) == Some(JList([]))
      && Get(d, EnableUnsortedKey) == Some(JBool(false))
  {
    var d := Document(em, en, defaultPath);
    GetAt(d, 0);
    GetAt(d, 1);
    GetAt(d, 2);
    GetAt(d, 3);
  }

  /**
   * What the four schema keys hold after a saved document holding the
   * encoding of `rs` is merged over a document holding the encoded tables
   * `em` and `en`: the tables are assigned over the default ones, the rules
   * and the flag replace theirs.
   */
  lemma MergedSchemaGets(d: Dict<JVal>, saved: Dict<JVal>, em: Dict<seq<string>>, en: Dict<bool>, rs: RuleSet)
    requires Unique(saved)
    requires Get(d, ExtensionMapKey) == Some(JObj(EncodeCategories(em)))
    requires Get(d, EnabledCategoriesKey) == Some(JObj(EncodeFlags(en)))
    requires Get(saved, ExtensionMapKey) == Some(JObj(EncodeCategories(rs.extensionMap)))
    requires Get(saved, EnabledCategoriesKey) == Some(JObj(EncodeFlags(rs.enabledCategories)))
    requires Get(saved, CustomRulesKey) == Some(JList(EncodeRules(rs.customRules)))
    requires Get(saved, EnableUnsortedKey) == Some(JBool(rs.enableUnsorted))
    ensures var r := Merge(d, saved);
      && Get(r, ExtensionMapKey) == Some(JObj(Update(EncodeCategories(em), EncodeCategories(rs.extensionMap))))
      && Get(r, EnabledCategoriesKey) == Some(JObj(Update(EncodeFlags(en), EncodeFlags(rs.enabledCategories))))
      && Get(r, CustomRulesKey) == Some(JList(EncodeRules(rs.customRules)))
      && Get(r, EnableUnsortedKey) == Some(JBool(rs.enableUnsorted))
  {
    MergedAt(d, saved, ExtensionMapKey, JObj(EncodeCategories(rs.extensionMap)));
    MergedAt(d, saved, EnabledCategoriesKey, JObj(EncodeFlags(rs.enabledCategories)));
    MergedAt(d, saved, CustomRulesKey, JList(EncodeRules(rs.customRules)));
    MergedAt(d, saved, EnableUnsortedKey, JBool(rs.enableUnsorted));
  }

  /**
   * Saving a rule set and loading the document again over a default-shaped
   * document gives the saved rule lists and flag back, and the saved
   * category tables assigned over the default ones.
   */
  lemma ReloadDocument(em: Dict<seq<string>>, en: Dict<bool>, defaultPath: string, config: Dict<JVal>, rs: RuleSet)
    requires Unique(em) && Unique(en) && Unique(config) && WellKeyed(rs)
    ensures DecodeRuleSet(Loaded(Document(em, en, defaultPath), Parsed(JObj(Store(config, rs))))) ==
      Some(RuleSet(Update(em, rs.extensionMap), Update(en, rs.enabledCategories), rs.customRules, rs.enableUnsorted))
  {
    var r := Loaded(Document(em, en, defaultPath), Parsed(JObj(Store(config, rs))));
    var expected := RuleSet(Update(em, rs.extensionMap), Update(en, rs.enabledCategories), rs.customRules, rs.enableUnsorted);
    DocumentGets(em, en, defaultPath);
    StoreUnique(config, rs);
    StoreGet(config, rs, ExtensionMapKey);
    StoreGet(config, rs, EnabledCategoriesKey);
    StoreGet(config, rs, CustomRulesKey);
    StoreGet(config, rs, EnableUnsortedKey);
    MergedSchemaGets(Document(em, en, defaultPath), Store(config, rs), em, en, rs);
    MapValuesUpdate(em, rs.extensionMap, EncodeExtensions);
    MapValuesUpdate(en, rs.enabledCategories, EncodeFlag);
    EncodedDecodes(r, expected);
  }

  /**
   * Saving a rule set and loading the document again over the defaults gives
   * the saved rule lists and flag back, and for every category the saved
   * extension list and enabled flag; default categories the saved document
   * lacks come back with their defaults.
   */
  lemma ReloadAfterSave(defaultPath: string, config: Dict<JVal>, rs: RuleSet)
    requires Unique(config) && WellKeyed(rs)
    ensures var reloaded := DecodeRuleSet(Loaded(Defaults(defaultPath), Parsed(JObj(Store(config, rs)))));
      && reloaded == Some(RuleSet(Update(DefaultExtensionMap, rs.extensionMap),
                                  Update(DefaultEnabledCategories, rs.enabledCategories),
                                  rs.customRules, rs.enableUnsorted))
      && (forall c :: c in Keys(rs.enabledCategories) ==>
            Get(reloaded.value.enabledCategories, c) == Get(rs.enabledCategories, c))
      && (forall c :: c in Keys(rs.extensionMap) ==>
            Get(reloaded.value.extensionMap, c) == Get(rs.extensionMap, c))
      && (forall c :: c in CategoryNames && c !in Keys(rs.extensionMap) ==>
            Get(reloaded.value.extensionMap, c) == Get(DefaultExtensionMap, c))
  {
    DefaultCategoriesUnique();
    ReloadDocument(DefaultExtensionMap, DefaultEnabledCategories, defaultPath, config, rs);
    forall c | c in Keys(rs.enabledCategories)
      ensures Get(Update(DefaultEnabledCategories, rs.enabledCategories), c) == Get(rs.enabledCategories, c)
    {
      GetUpdate(DefaultEnabledCategories, rs.enabledCategories, c);
    }
    forall c | c in Keys(rs.extensionMap) || c in CategoryNames
      ensures Get(Update(DefaultExtensionMap, rs.extensionMap), c) ==
        if c in Keys(rs.extensionMap) then Get(rs.extensionMap, c) else Get(DefaultExtensionMap, c)
    {
      GetUpdate(DefaultExtensionMap, rs.extensionMap, c);
    }
  }
}
