/**
 * `FileOrganizer`: the rule set loaded from the configuration, the five
 * mutators that edit it and save it, and `organize_files`.
 */
module Organizer {
  import opened Wrappers
  import opened Dicts
  import opened Json
  import opened Text
  import opened Classification
  import opened Collision
  import opened Schema
  import opened ConfigStore
  import opened Scanner

  /** The normalised form `add_extension_to_category` stores: a leading dot, lowercased. */
  function NormalizeExt(extension: string): (r: string)
    ensures |r| >= 1 && r[0] == '.'
    ensures Lower(r) == r
  {
    LowerIdempotent(if "." <= extension then extension else "." + extension);
    Lower(if "." <= extension then extension else "." + extension)
  }

  /** A category's extension list after adding `extension`: appended once, when new. */
  function WithExtension(list: seq<string>, extension: string): (r: seq<string>)
    ensures NormalizeExt(extension) in r
    ensures list <= r && |r| <= |list| + 1
    ensures forall x :: x in r ==> x in list || x == NormalizeExt(extension)
    ensures (forall i, j :: 0 <= i < j < |list| ==> list[i] != list[j]) ==>
            (forall i, j :: 0 <= i < j < |r| ==> r[i] != r[j])
  {
    var e := NormalizeExt(extension);
    if e in list then list else list + [e]
  }

  /** Normalising an already normalised extension changes nothing. */
  lemma NormalizeIdempotent(extension: string)
    ensures NormalizeExt(NormalizeExt(extension)) == NormalizeExt(extension)
  {
    var r := NormalizeExt(extension);
    assert "." <= r;
  }

  /** Extensions that differ only in ASCII case, or in a missing leading dot, normalise alike. */
  lemma NormalizeAlike(a: string, b: string)
    requires Lower(a) == Lower(b) || a == "." + b
    requires !("." <= b) || Lower(a) == Lower(b)
    ensures NormalizeExt(a) == NormalizeExt(b)
  {
    if Lower(a) == Lower(b) {
      assert ("." <= a) <==> ("." <= b) by {
        if |a| > 0 { assert Lower(a)[0] == LowerChar(a[0]) && Lower(b)[0] == LowerChar(b[0]); }
      }
      LowerConcat(".", a);
      LowerConcat(".", b);
    } else {
      assert "." <= a;
    }
  }

  /** An extension without its dot normalises like its dotted, lowercased spelling. */
  lemma NormalizeUndotted(x: string)
    requires !("." <= x)
    ensures NormalizeExt(x) == NormalizeExt("." + Lower(x))
  {
    LowerConcat(".", x);
    LowerIdempotent(x);
    LowerConcat(".", Lower(x));
  }

  /** `"PNG"` and `".png"` add the same entry. */
  lemma PngExample()
    ensures NormalizeExt("PNG") == NormalizeExt(".png") == ".png"
  {
    assert !("." <= "PNG");
    assert "." <= ".png";
    assert Lower(".PNG") == ".png";
    assert Lower(".png") == ".png";
  }

  /** Adding an extension twice, or in another spelling of the same form, adds it once. */
  lemma WithExtensionIdempotent(list: seq<string>, a: string, b: string)
    requires NormalizeExt(a) == NormalizeExt(b)
    ensures WithExtension(WithExtension(list, a), b) == WithExtension(list, a)
  {
  }

  /**
   * One entry of `organize_files`: a file the rules classify gets its target
   * folder created and is moved there under the first free name, unless the
   * move fails.  `moved` says whether it counts towards `files_moved`.
   */
  method OrganizeEntry(rs: RuleSet, failing: set<string>, folders: Folders, entry: Entry)
    returns (reported: seq<Event>, after: Folders, moved: bool)
    ensures reported == EntryEvents(rs, failing, entry)
    ensures after == EntryFolders(rs, failing, folders, entry)
    ensures MovedCount(reported) == if moved then 1 else 0
  {
    reported, after, moved := [], folders, false;
    if !entry.isDir {
      var target := FindTarget(entry.name, rs);
      if target.Some? {
        var t := target.value;
        var present := Present(after, t);
        after := after[t := present];
        if entry.name in failing {
          reported := [FileError(entry.name)];
        } else {
          var destination := ResolveCollision(entry.name, present);
          after := after[t := present + {destination}];
          reported := [Moved(entry.name, t)];
          moved := true;
        }
        assert reported[..0] == [];
      }
    }
  }

  /** The loop of `organize_files` over the listing, counting the files moved. */
  method ScanEntries(rs: RuleSet, failing: set<string>, folders: Folders, entries: seq<Entry>)
    returns (events: seq<Event>, after: Folders, filesMoved: nat)
    ensures Outcome(events, after) == Scan(rs, failing, folders, entries)
    ensures filesMoved == MovedCount(events)
  {
    events, after, filesMoved := [], folders, 0;
    for i := 0 to |entries|
      invariant Outcome(events, after) == Scan(rs, failing, folders, entries[..i])
      invariant filesMoved == MovedCount(events)
    {
      assert entries[..i + 1] == entries[..i] + [entries[i]];
      ScanSnoc(rs, failing, folders, entries[..i], entries[i]);
      var reported, moved;
      reported, after, moved := OrganizeEntry(rs, failing, after, entries[i]);
      MovedCountAppend(events, reported);
      events := events + reported;
      if moved {
        filesMoved := filesMoved + 1;
      }
    }
    assert entries[..|entries|] == entries;
  }

  class FileOrganizer {
    /** The configuration document as loaded, and as last saved. */
    var config: Dict<JVal>
    var extensionMap: Dict<seq<string>>
    var enabledCategories: Dict<bool>
    var customRules: seq<Rule>
    var enableUnsorted: bool
    /** What `config.json` holds. */
    ghost var persisted: Stored

    /** The fields that drive classification. */
    function Rules(): RuleSet
      reads this
    {
      RuleSet(extensionMap, enabledCategories, customRules, enableUnsorted)
    }

    /** The document and the two category tables have no repeated key. */
    predicate Valid()
      reads this
    {
      Unique(config) && WellKeyed(Rules())
    }

    /**
     * `__init__`: loads the configuration (writing the defaults when no file
     * exists) and takes the rule set from it.
     */
    constructor (defaultPath: string, stored: Stored)
      requires DecodeRuleSet(Loaded(Defaults(defaultPath), stored)).Some?
      ensures Valid()
      ensures config == Loaded(Defaults(defaultPath), stored)
      ensures Some(Rules()) == DecodeRuleSet(config)
      ensures persisted == if stored.Absent? then Parsed(JObj(Defaults(defaultPath))) else stored
    {
      DefaultsDecode(defaultPath);
      var c, written := LoadConfig(Defaults(defaultPath), stored);
      var rs := DecodeRuleSet(c).value;
      config := c;
      extensionMap := rs.extensionMap;
      enabledCategories := rs.enabledCategories;
      customRules := rs.customRules;
      enableUnsorted := rs.enableUnsorted;
      persisted := written;
    }

    /** `save_state`: writes the four fields into the document and the document to disk. */
    method SaveState()
      requires Valid()
      modifies `config, `persisted
      ensures config == Store(old(config), Rules())
      ensures Rules() == old(Rules())
      ensures persisted == Parsed(JObj(config))
      ensures Valid()
      ensures DecodeRuleSet(config) == Some(Rules())
    {
      var rs := Rules();
      StoreDecodes(config, rs);
      config := Store(config, rs);
      assert Rules() == rs;
      SaveConfig();
    }

    /** `ConfigManager.save_config(self.config)`: the document is written to disk. */
    method SaveConfig()
      modifies `persisted
      ensures persisted == Parsed(JObj(config))
    {
      persisted := Parsed(JObj(config));
    }

    /** `set_category_enabled`: only a category already in the map can be switched. */
    method SetCategoryEnabled(category: string, enabled: bool)
      requires Valid()
      modifies this
      ensures Valid()
      ensures category !in Keys(old(enabledCategories)) ==> unchanged(this)
      ensures category in Keys(old(enabledCategories)) ==>
        && enabledCategories == Put(old(enabledCategories), category, enabled)
        && Keys(enabledCategories) == Keys(old(enabledCategories))
        && Get(enabledCategories, category) == Some(enabled)
        && extensionMap == old(extensionMap) && customRules == old(customRules)
        && enableUnsorted == old(enableUnsorted)
        && config == Store(old(config), Rules()) && persisted == Parsed(JObj(config))
    {
      if category in Keys(enabledCategories) {
        GetPut(enabledCategories, category, enabled, category);
        enabledCategories := Put(enabledCategories, category, enabled);
        SaveState();
      }
    }

    /** `set_unsorted_enabled`: always sets the flag and saves. */
    method SetUnsortedEnabled(enabled: bool)
      requires Valid()
      modifies this
      ensures Valid()
      ensures Rules() == old(Rules()).(enableUnsorted := enabled)
      ensures config == Store(old(config), Rules()) && persisted == Parsed(JObj(config))
    {
      enableUnsorted := enabled;
      SaveState();
    }

    /** `add_custom_rule`: appends a rule when both strings are non-empty. */
    method AddCustomRule(keyword: string, targetFolder: string)
      requires Valid()
      modifies this
      ensures Valid()
      ensures keyword == "" || targetFolder == "" ==> unchanged(this)
      ensures keyword != "" && targetFolder != "" ==>
        && Rules() == old(Rules()).(customRules := old(customRules) + [Rule(keyword, targetFolder)])
        && config == Store(old(config), Rules()) && persisted == Parsed(JObj(config))
    {
      if keyword != "" && targetFolder != "" {
        customRules := customRules + [Rule(keyword, targetFolder)];
        SaveState();
      }
    }

    /** `remove_custom_rule`: removes the rule at `index` when there is one. */
    method RemoveCustomRule(index: int)
      requires Valid()
      modifies this
      ensures Valid()
      ensures !(0 <= index < |old(customRules)|) ==> unchanged(this)
      ensures 0 <= index < |old(customRules)| ==>
        && Rules() == old(Rules()).(customRules := old(customRules)[..index] + old(customRules)[index + 1..])
        && |customRules| == |old(customRules)| - 1
        && (forall j :: 0 <= j < index ==> customRules[j] == old(customRules)[j])
        && (forall j :: index <= j < |customRules| ==> customRules[j] == old(customRules)[j + 1])
        && config == Store(old(config), Rules()) && persisted == Parsed(JObj(config))
    {
      if 0 <= index < |customRules| {
        var rest := customRules[..index] + customRules[index + 1..];
        assert |rest| == |customRules| - 1;
        assert forall j :: 0 <= j < index ==> rest[j] == customRules[j];
        assert forall j :: index <= j < |rest| ==> rest[j] == customRules[j + 1];
        customRules := rest;
        SaveState();
      }
    }

    /**
     * `add_extension_to_category`: for a known category, adds the normalised
     * extension unless the list already holds it, and saves only then.
     */
    method AddExtensionToCategory(category: string, extension: string)
      requires Valid()
      modifies this
      ensures Valid()
      ensures category !in Keys(old(extensionMap)) ==> unchanged(this)
      ensures category in Keys(old(extensionMap)) ==>
        var list := Get(old(extensionMap), category).value;
        if NormalizeExt(extension) in list then unchanged(this)
        else
          && extensionMap == Put(old(extensionMap), category, WithExtension(list, extension))
          && Keys(extensionMap) == Keys(old(extensionMap))
          && Get(extensionMap, category) == Some(list + [NormalizeExt(extension)])
          && enabledCategories == old(enabledCategories) && customRules == old(customRules)
          && enableUnsorted == old(enableUnsorted)
          && config == Store(old(config), Rules()) && persisted == Parsed(JObj(config))
    {
      if category in Keys(extensionMap) {
        var ext := extension;
        if !("." <= ext) {
          ext := "." + ext;
        }
        ext := Lower(ext);
        var list := Get(extensionMap, category).value;
        if ext !in list {
          GetPut(extensionMap, category, list + [ext], category);
          extensionMap := Put(extensionMap, category, list + [ext]);
          SaveState();
        }
      }
    }

    /**
     * `organize_files` over a snapshot of the source directory.  `folders`
     * are its sub-folders before the run and `failing` the files whose move
     * fails; the result is what is reported and the folders afterwards.
     */
    method Organize(listing: Listing, folders: Folders, failing: set<string>) returns (events: seq<Event>, after: Folders)
      ensures Outcome(events, after) == Organized(Rules(), listing, folders, failing)
    {
      match listing
      case Missing =>
        events, after := [PathNotFound], folders;
      case Unreadable =>
        events, after := [SystemError], folders;
      case Listed(entries) =>
        var filesMoved;
        events, after, filesMoved := ScanEntries(Rules(), failing, folders, entries);
        if filesMoved == 0 {
          events := events + [NoMatches];
        } else {
          events := events + [Success(filesMoved)];
        }
    }
  }
}
