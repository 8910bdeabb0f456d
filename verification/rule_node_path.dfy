/** The item paths of a rule's persisted configuration. A named item type keys
    one node per item name (`tables/<name>`); a unique item type keys a single
    node. A dotted unique type `tables.type` is filed under its last segment
    `type` and lives at `tables/type`. Item paths are relative: the rule type
    is kept only as the root and never enters them. */
module RuleNodePath {
  import opened Wrappers
  import opened PathStrings

  datatype NamedRuleItemNodePath = NamedRuleItemNodePath(typ: string)

  /** A unique item's parent path (absent for an undotted type) and its own segment. */
  datatype UniqueRuleItemNodePath = UniqueRuleItemNodePath(parentNode: Option<string>, typ: string)

  datatype RuleNodePath = RuleNodePath(
    root: string,
    namedItems: map<string, NamedRuleItemNodePath>,
    uniqueItems: map<string, UniqueRuleItemNodePath>)

  /** The path of the named item called itemName: one level below its type. */
  function NamedPath(item: NamedRuleItemNodePath, itemName: string): (path: string)
    ensures '/' !in item.typ && '/' !in itemName ==> Split(path, '/') == [item.typ, itemName]
  {
    SplitAppend(item.typ, '/', itemName);
    item.typ + "/" + itemName
  }

  /** The path of a unique item: its own segment, below its parent's path if it has one. */
  function UniquePath(item: UniqueRuleItemNodePath): (path: string)
    ensures item.parentNode.None? ==> path == item.typ
    ensures item.parentNode.Some? && '/' !in item.typ ==>
      Split(path, '/') == Split(item.parentNode.value, '/') + [item.typ]
  {
    match item.parentNode
    case None => item.typ
    case Some(parent) =>
      SplitAppend(parent, '/', item.typ);
      parent + "/" + item.typ
  }

  /** The unique item a type declares: its last dot-separated segment, under
      the segments before it. */
  function UniqueItemOf(uniqueType: string): (item: UniqueRuleItemNodePath)
    ensures '.' !in item.typ
    ensures '.' !in uniqueType ==> item == UniqueRuleItemNodePath(None, uniqueType)
  {
    var segments := Split(uniqueType, '.');
    var last := |segments| - 1;
    SplitJoinRoundTrip(uniqueType, '.');
    if last == 0 then UniqueRuleItemNodePath(None, uniqueType)
    else UniqueRuleItemNodePath(Some(Join(segments[..last], "/")), segments[last])
  }

  /** A named item per type, keyed by the type. */
  function NamedItems(types: seq<string>): (items: map<string, NamedRuleItemNodePath>)
    ensures items.Keys == set t | t in types
    ensures forall t :: t in items ==> items[t] == NamedRuleItemNodePath(t)
  {
    map t | t in types :: NamedRuleItemNodePath(t)
  }

  /** types[i] is the last type whose key is k. */
  ghost predicate LastWithKey(types: seq<string>, i: int, k: string) {
    && 0 <= i < |types|
    && UniqueItemOf(types[i]).typ == k
    && forall j :: i < j < |types| ==> UniqueItemOf(types[j]).typ != k
  }

  /** A unique item per type, keyed by its last segment; a later type with the
      same key replaces an earlier one. */
  function UniqueItems(types: seq<string>): (items: map<string, UniqueRuleItemNodePath>)
    ensures forall k :: k in items <==> exists i :: 0 <= i < |types| && UniqueItemOf(types[i]).typ == k
    decreases |types|
  {
    if |types| == 0 then map[]
    else
      var n := |types| - 1;
      var init := types[..n];
      var item := UniqueItemOf(types[n]);
      assert forall i :: 0 <= i < n ==> types[i] == init[i];
      UniqueItems(init)[item.typ := item]
  }

  /** Each key holds the item of the last type declared under it. */
  lemma {:induction false} UniqueItemsLastWins(types: seq<string>, k: string)
    requires k in UniqueItems(types)
    ensures exists i :: LastWithKey(types, i, k) && UniqueItems(types)[k] == UniqueItemOf(types[i])
    decreases |types|
  {
    var n := |types| - 1;
    var init := types[..n];
    var item := UniqueItemOf(types[n]);
    assert UniqueItems(types) == UniqueItems(init)[item.typ := item];
    if item.typ == k {
      assert LastWithKey(types, n, k);
    } else {
      UniqueItemsLastWins(init, k);
      var i :| LastWithKey(init, i, k) && UniqueItems(init)[k] == UniqueItemOf(init[i]);
      LastWithKeyExtends(types, i, k);
    }
  }

  /** The last type keyed k stays the last one when a type with another key follows. */
  lemma LastWithKeyExtends(types: seq<string>, i: int, k: string)
    requires |types| > 0
    requires LastWithKey(types[..|types| - 1], i, k)
    requires UniqueItemOf(types[|types| - 1]).typ != k
    ensures LastWithKey(types, i, k)
  {
    var n := |types| - 1;
    var init := types[..n];
    assert types[i] == init[i];
    forall j | i < j < |types|
      ensures UniqueItemOf(types[j]).typ != k
    {
      if j < n {
        assert types[j] == init[j];
      }
    }
  }

  /** The rule node path of a rule type with its named and unique item types. */
  function NewRuleNodePath(ruleType: string, namedTypes: seq<string>, uniqueTypes: seq<string>): (rule: RuleNodePath)
    ensures rule.root == ruleType
    ensures rule.namedItems.Keys == set t | t in namedTypes
    ensures forall k :: k in rule.uniqueItems <==> exists i :: 0 <= i < |uniqueTypes| && UniqueItemOf(uniqueTypes[i]).typ == k
  {
    RuleNodePath(ruleType, NamedItems(namedTypes), UniqueItems(uniqueTypes))
  }

  /** The named item registered for itemType, if any. */
  function GetNamedItem(ruleNodePath: RuleNodePath, itemType: string): (item: Option<NamedRuleItemNodePath>)
    ensures item.Some? <==> itemType in ruleNodePath.namedItems
    ensures item.Some? ==> item.value == ruleNodePath.namedItems[itemType]
  {
    if itemType in ruleNodePath.namedItems then Some(ruleNodePath.namedItems[itemType]) else None
  }

  /** The unique item registered under key, if any. */
  function GetUniqueItem(ruleNodePath: RuleNodePath, key: string): (item: Option<UniqueRuleItemNodePath>)
    ensures item.Some? <==> key in ruleNodePath.uniqueItems
    ensures item.Some? ==> item.value == ruleNodePath.uniqueItems[key]
  {
    if key in ruleNodePath.uniqueItems then Some(ruleNodePath.uniqueItems[key]) else None
  }

  /** A unique item's path is its type with every dot turned into a slash. */
  lemma UniquePathReplacesDots(uniqueType: string)
    ensures UniquePath(UniqueItemOf(uniqueType)) == Replace(uniqueType, '.', '/')
  {
    var segments := Split(uniqueType, '.');
    JoinSplitIsReplace(uniqueType, '.', '/');
    if |segments| > 1 {
      JoinSnoc(segments, "/");
    }
  }

  /** A dotted unique type is filed under the segment after its last dot. */
  lemma DottedTypeKeyedByLastSegment(parent: string, last: string)
    requires '.' !in last
    ensures UniqueItemOf(parent + "." + last).typ == last
  {
    SplitAppend(parent, '.', last);
  }

  /** A type with a single dot is filed under the segment after the dot, below the one before it. */
  lemma DottedUniqueItem(parent: string, last: string)
    requires '.' !in parent && '.' !in last
    ensures UniqueItemOf(parent + "." + last) == UniqueRuleItemNodePath(Some(parent), last)
  {
    SplitAppend(parent, '.', last);
    assert Split(parent + "." + last, '.') == [parent, last];
  }

  /** A registered named type is found, and its item paths are `type/name`. */
  lemma NamedItemFound(ruleType: string, namedTypes: seq<string>, uniqueTypes: seq<string>,
                       itemType: string, itemName: string)
    ensures GetNamedItem(NewRuleNodePath(ruleType, namedTypes, uniqueTypes), itemType).Some?
        <==> itemType in namedTypes
    ensures itemType in namedTypes ==>
      NamedPath(GetNamedItem(NewRuleNodePath(ruleType, namedTypes, uniqueTypes), itemType).value, itemName)
        == itemType + "/" + itemName
  {
  }

  /** A unique item is found by the key of some declared type, and its path is
      that of the last type declared under that key, dots turned into slashes. */
  lemma UniqueItemFound(ruleType: string, namedTypes: seq<string>, uniqueTypes: seq<string>, key: string)
    ensures GetUniqueItem(NewRuleNodePath(ruleType, namedTypes, uniqueTypes), key).Some?
        <==> exists i :: 0 <= i < |uniqueTypes| && UniqueItemOf(uniqueTypes[i]).typ == key
    ensures GetUniqueItem(NewRuleNodePath(ruleType, namedTypes, uniqueTypes), key).Some? ==>
      exists i :: (LastWithKey(uniqueTypes, i, key)
        && UniquePath(GetUniqueItem(NewRuleNodePath(ruleType, namedTypes, uniqueTypes), key).value)
           == Replace(uniqueTypes[i], '.', '/'))
  {
    var items := UniqueItems(uniqueTypes);
    if key in items {
      UniqueItemsLastWins(uniqueTypes, key);
      var i :| LastWithKey(uniqueTypes, i, key) && items[key] == UniqueItemOf(uniqueTypes[i]);
      UniquePathReplacesDots(uniqueTypes[i]);
    }
  }

  /** The rule type never enters an item: the registries depend only on the item types. */
  lemma ItemsIndependentOfRuleType(ruleType1: string, ruleType2: string, namedTypes: seq<string>, uniqueTypes: seq<string>)
    ensures NewRuleNodePath(ruleType1, namedTypes, uniqueTypes).namedItems
         == NewRuleNodePath(ruleType2, namedTypes, uniqueTypes).namedItems
    ensures NewRuleNodePath(ruleType1, namedTypes, uniqueTypes).uniqueItems
         == NewRuleNodePath(ruleType2, namedTypes, uniqueTypes).uniqueItems
  {
  }

  /** The unique type `tables` is its own key and path. */
  lemma TablesItem()
    ensures UniqueItemOf("tables") == UniqueRuleItemNodePath(None, "tables")
  {
    assert '.' !in "tables";
  }

  /** The unique type `tables.type` is keyed `type` and lives at `tables/type`. */
  lemma TablesTypeItem()
    ensures UniqueItemOf("tables.type") == UniqueRuleItemNodePath(Some("tables"), "type")
    ensures UniquePath(UniqueItemOf("tables.type")) == "tables/type"
  {
    assert '.' !in "tables" && '.' !in "type";
    DottedUniqueItem("tables", "type");
    assert "tables" + "." + "type" == "tables.type";
    TablesTypePath();
  }

  lemma TablesTypePath()
    ensures "tables" + "/" + "type" == "tables/type"
  {
  }

  /** The named type `tables` files item `foo_tbl` at `tables/foo_tbl`. */
  lemma FooTableItem()
    ensures NamedPath(NamedRuleItemNodePath("tables"), "foo_tbl") == "tables/foo_tbl"
  {
  }

  /** Named type `tables` is keyed `tables`. */
  lemma FooNamedItems()
    ensures NamedItems(["tables"]) == map["tables" := NamedRuleItemNodePath("tables")]
  {
    assert "tables" in ["tables"];
  }

  /** Unique types `tables` and `tables.type` are keyed `tables` and `type`. */
  lemma FooUniqueItems()
    ensures UniqueItems(["tables", "tables.type"])
         == map["tables" := UniqueRuleItemNodePath(None, "tables"), "type" := UniqueRuleItemNodePath(Some("tables"), "type")]
  {
    TwoUniqueItems("tables", "tables.type");
    TablesItem();
    TablesTypeItem();
  }

  /** Two unique types registered in order. */
  lemma TwoUniqueItems(first: string, second: string)
    ensures UniqueItems([first, second])
         == map[UniqueItemOf(first).typ := UniqueItemOf(first)][UniqueItemOf(second).typ := UniqueItemOf(second)]
  {
    assert [first, second][..1] == [first];
    assert [first][..0] == [];
  }

  /** The rule path `foo` with named type `tables` and unique types `tables`
      and `tables.type`: `tables` names `tables/<name>`, unique `tables` lives
      at `tables`, and unique `type` at `tables/type`. */
  lemma FooRulePaths()
    ensures var rule := NewRuleNodePath("foo", ["tables"], ["tables", "tables.type"]);
      && GetNamedItem(rule, "tables").Some?
      && NamedPath(GetNamedItem(rule, "tables").value, "foo_tbl") == "tables/foo_tbl"
      && GetUniqueItem(rule, "tables").Some?
      && UniquePath(GetUniqueItem(rule, "tables").value) == "tables"
      && GetUniqueItem(rule, "type").Some?
      && UniquePath(GetUniqueItem(rule, "type").value) == "tables/type"
  {
    var rule := NewRuleNodePath("foo", ["tables"], ["tables", "tables.type"]);
    FooNamedItems();
    FooUniqueItems();
    assert rule.namedItems == map["tables" := NamedRuleItemNodePath("tables")];
    assert rule.uniqueItems == map["tables" := UniqueRuleItemNodePath(None, "tables"), "type" := UniqueRuleItemNodePath(Some("tables"), "type")];
    assert GetNamedItem(rule, "tables") == Some(NamedRuleItemNodePath("tables"));
    assert GetUniqueItem(rule, "tables") == Some(UniqueRuleItemNodePath(None, "tables"));
    assert GetUniqueItem(rule, "type") == Some(UniqueRuleItemNodePath(Some("tables"), "type"));
    TablesTypePath();
    FooTableItem();
  }
}
