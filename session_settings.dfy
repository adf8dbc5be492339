/** User settings in the browser: the browser keeps one flat dictionary whose keys carry their
    section as a `<section>:` prefix; the session turns it into a JSON document with one
    `section:<name>` dictionary per section, and builds flat keys when saving. */
module SessionSettings {
  import opened Wrappers
  import opened Strings

  /** Where a flat key lands: directly in the document, or inside a section dictionary
      (named with its `section:` prefix). */
  datatype Slot = RootSlot(key: string) | SectionSlot(section: string, key: string)

  /** The loaded settings document: root entries and section dictionaries. */
  datatype SettingsJson<V> = SettingsJson(root: map<string, V>, sections: map<string, map<string, V>>)

  const SectionPrefix := "section:"

  /** Splits a flat key at its last colon: a non-empty part before it names the section. */
  function Placement(flatKey: string): (s: Slot)
    ensures !Contains(flatKey, ':') ==> s == RootSlot(flatKey)
    ensures !Contains(s.key, ':')
  {
    var (sectionName, key) := RPartition(flatKey, ':');
    if sectionName != "" then SectionSlot(SectionPrefix + sectionName, key) else RootSlot(key)
  }

  /** The flat key `_save_settings_now_in_browser` writes for an attribute of a section. */
  function FlatKey(sectionName: string, attr: string): (k: string)
    ensures sectionName == "" ==> k == attr
    ensures sectionName != "" ==>
              |k| == |sectionName| + 1 + |attr| && k[..|sectionName|] == sectionName &&
              k[|sectionName|] == ':' && k[|sectionName| + 1..] == attr
  {
    if sectionName != "" then sectionName + ":" + attr else attr
  }

  /** The last occurrence of `c` in `x + [c] + y` is the one after `x` when `y` holds none. */
  lemma {:induction false} LastIndexAfterPrefix(x: string, y: string, c: char)
    requires !Contains(y, c)
    ensures LastIndexOf(x + [c] + y, c) == Some(|x|)
    decreases |y|
  {
    var s := x + [c] + y;
    if y != [] {
      assert s[|s| - 1] == y[|y| - 1];
      var y0 := y[..|y| - 1];
      assert !Contains(y0, c) by {
        assert forall j :: 0 <= j < |y0| ==> y0[j] == y[j];
      }
      assert s[..|s| - 1] == x + [c] + y0;
      LastIndexAfterPrefix(x, y0, c);
    }
  }

  /** A string decomposes around its last occurrence of `c` in only one way. */
  lemma LastSeparatorUnique(x: string, y: string, x': string, y': string, c: char)
    requires x + [c] + y == x' + [c] + y'
    requires !Contains(y, c) && !Contains(y', c)
    ensures x == x' && y == y'
  {
    var s := x + [c] + y;
    LastIndexAfterPrefix(x, y, c);
    LastIndexAfterPrefix(x', y', c);
    assert x == s[..|x|] == x';
    assert y == s[|x| + 1..] == y';
  }

  /** Saving and loading agree: an attribute without a colon comes back to the section it
      was saved from, or to the root for a settings class without a section. */
  lemma FlatKeyRoundTrip(sectionName: string, attr: string)
    requires !Contains(attr, ':')
    ensures Placement(FlatKey(sectionName, attr)) ==
            if sectionName != "" then SectionSlot(SectionPrefix + sectionName, attr) else RootSlot(attr)
  {
    if sectionName != "" {
      var k := FlatKey(sectionName, attr);
      assert k == sectionName + [':'] + attr;
      assert k[|sectionName|] == ':';
      var (a, b) := RPartition(k, ':');
      LastSeparatorUnique(a, b, sectionName, attr, ':');
    }
  }

  /** With a colon in the attribute name the round trip breaks: the attribute is filed
      under a different section. */
  lemma ColonInAttributeMisfiled()
    ensures Placement(FlatKey("s", "a:b")) == SectionSlot("section:s:a", "b")
  {
    var k := FlatKey("s", "a:b");
    assert k == "s:a" + [':'] + "b";
    assert !Contains("b", ':');
    var (a, b) := RPartition(k, ':');
    LastSeparatorUnique(a, b, "s:a", "b", ':');
  }

  /** Within one section, distinct attributes have distinct flat keys. */
  lemma FlatKeyInjective(sectionName: string, a: string, b: string)
    requires FlatKey(sectionName, a) == FlatKey(sectionName, b)
    ensures a == b
  {
    if sectionName != "" {
      var prefix := sectionName + ":";
      assert FlatKey(sectionName, a) == prefix + a && FlatKey(sectionName, b) == prefix + b;
      assert a == (prefix + a)[|prefix|..];
      assert b == (prefix + b)[|prefix|..];
    }
  }

  /** The flat keys and values written for the given attributes of one section. */
  function SectionDelta<V>(sectionName: string, values: map<string, V>, attrs: set<string>): map<string, V>
    requires attrs <= values.Keys
  {
    assert forall a, b :: a in attrs && b in attrs && FlatKey(sectionName, a) == FlatKey(sectionName, b) ==> a == b by {
      forall a, b | a in attrs && b in attrs && FlatKey(sectionName, a) == FlatKey(sectionName, b) {
        FlatKeyInjective(sectionName, a, b);
      }
    }
    map a | a in attrs :: FlatKey(sectionName, a) := values[a]
  }

  /** The delta of a section holds the flat key of each attribute written, with its value,
      and no other key; saved and reloaded, each attribute without a colon lands back in
      its own section. */
  lemma SectionDeltaContents<V>(sectionName: string, values: map<string, V>, attrs: set<string>)
    requires attrs <= values.Keys
    ensures SectionDelta(sectionName, values, attrs).Keys == set a | a in attrs :: FlatKey(sectionName, a)
    ensures forall a :: a in attrs ==> SectionDelta(sectionName, values, attrs)[FlatKey(sectionName, a)] == values[a]
    ensures forall a :: a in attrs && !Contains(a, ':') ==>
              Placement(FlatKey(sectionName, a)) ==
              if sectionName != "" then SectionSlot(SectionPrefix + sectionName, a) else RootSlot(a)
  {
    var d := SectionDelta(sectionName, values, attrs);
    forall a | a in attrs
      ensures d[FlatKey(sectionName, a)] == values[a]
    {
      assert FlatKey(sectionName, a) in d;
      var b :| b in attrs && FlatKey(sectionName, b) == FlatKey(sectionName, a) && d[FlatKey(sectionName, a)] == values[b];
      FlatKeyInjective(sectionName, a, b);
    }
    forall a | a in attrs && !Contains(a, ':')
      ensures Placement(FlatKey(sectionName, a)) ==
              if sectionName != "" then SectionSlot(SectionPrefix + sectionName, a) else RootSlot(a)
    {
      FlatKeyRoundTrip(sectionName, a);
    }
  }

  /** Writing one more attribute extends the delta by its flat key. */
  lemma SectionDeltaStep<V>(sectionName: string, values: map<string, V>, done: set<string>, a: string)
    requires done + {a} <= values.Keys
    ensures SectionDelta(sectionName, values, done + {a}) ==
            SectionDelta(sectionName, values, done)[FlatKey(sectionName, a) := values[a]]
  {
    var l := SectionDelta(sectionName, values, done + {a});
    var m := SectionDelta(sectionName, values, done);
    var r := m[FlatKey(sectionName, a) := values[a]];
    forall k | k in l
      ensures k in r && l[k] == r[k]
    {
      var b :| b in done + {a} && k == FlatKey(sectionName, b) && l[k] == values[b];
      if k == FlatKey(sectionName, a) {
        FlatKeyInjective(sectionName, a, b);
      } else {
        assert b in done && k in m;
        var b' :| b' in done && k == FlatKey(sectionName, b') && m[k] == values[b'];
        FlatKeyInjective(sectionName, b, b');
      }
    }
    forall k | k in r
      ensures k in l
    {
      if k != FlatKey(sectionName, a) {
        var b :| b in done && k == FlatKey(sectionName, b);
        assert FlatKey(sectionName, b) in l;
      } else {
        assert FlatKey(sectionName, a) in l;
      }
    }
    assert l == r;
  }

  /** Writes a value into a slot, creating the section dictionary when it is missing. */
  function Store<V>(json: SettingsJson<V>, slot: Slot, value: V): SettingsJson<V> {
    match slot
    case RootSlot(k) => json.(root := json.root[k := value])
    case SectionSlot(s, k) =>
      var section := if s in json.sections then json.sections[s] else map[];
      json.(sections := json.sections[s := section[k := value]])
  }

  function Lookup<V>(json: SettingsJson<V>, slot: Slot): Option<V> {
    match slot
    case RootSlot(k) => if k in json.root then Some(json.root[k]) else None
    case SectionSlot(s, k) => if s in json.sections && k in json.sections[s] then Some(json.sections[s][k]) else None
  }

  /** A store is seen by a lookup of that slot and by no other. */
  lemma LookupStore<V>(json: SettingsJson<V>, slot: Slot, value: V, other: Slot)
    ensures Lookup(Store(json, slot, value), other) == if other == slot then Some(value) else Lookup(json, other)
  {
  }

  /** The document the browser branch of `_load_user_settings` builds from the items the
      client sent, in order. */
  function Loaded<V>(items: seq<(string, V)>): SettingsJson<V> {
    if items == [] then SettingsJson(map[], map[])
    else Store(Loaded(items[..|items| - 1]), Placement(items[|items| - 1].0), items[|items| - 1].1)
  }

  /** The value of the last item whose key lands in `slot`. */
  function LastValueAt<V>(items: seq<(string, V)>, slot: Slot): Option<V> {
    if items == [] then None
    else if Placement(items[|items| - 1].0) == slot then Some(items[|items| - 1].1)
    else LastValueAt(items[..|items| - 1], slot)
  }

  /** Every slot of the loaded document holds the last value sent for it, and slots no key
      lands in stay empty. */
  lemma {:induction false} LoadedHoldsLastValue<V>(items: seq<(string, V)>, slot: Slot)
    ensures Lookup(Loaded(items), slot) == LastValueAt(items, slot)
  {
    if items != [] {
      var n := |items| - 1;
      LoadedHoldsLastValue(items[..n], slot);
      LookupStore(Loaded(items[..n]), Placement(items[n].0), items[n].1, slot);
    }
  }

  /** The browser branch of `_load_user_settings`. */
  method LoadBrowserSettings<V>(items: seq<(string, V)>) returns (json: SettingsJson<V>)
    ensures json == Loaded(items)
  {
    json := SettingsJson(map[], map[]);
    for i := 0 to |items|
      invariant json == Loaded(items[..i])
    {
      var (flatKey, value) := items[i];
      var (sectionName, key) := RPartition(flatKey, ':');
      if sectionName != "" {
        var name := SectionPrefix + sectionName;
        var section := if name in json.sections then json.sections[name] else map[];
        json := json.(sections := json.sections[name := section[key := value]]);
      } else {
        json := json.(root := json.root[key := value]);
      }
      assert items[..i + 1][..i] == items[..i];
    }
    assert items[..|items|] == items;
  }
}
