/**
 * The application settings (`Settings`): theme, accent colour, blur and
 * the "last opened" list, loaded from and saved to an XML document.
 *
 * The file system, Brotli compression and the XML reader are outside the
 * model: an `Env` says which paths exist, which element tree a settings
 * file holds, and how dates are parsed and formatted. Loading walks that
 * element tree; saving produces the text lines that are written.
 */
module AppSettings {
  import opened Wrappers
  import opened Strings
  import Paths
  import Tools

  // ---------------------------------------------------------------------
  // Values
  // ---------------------------------------------------------------------

  /** The `Theme` enumeration's named values; any 32-bit value can be stored. */
  const ThemeDefault: int := 0
  const ThemeLight: int := 1
  const ThemeDark: int := 2

  /** `Color.Parse("#bd0082")`: the six-digit form is opaque, so alpha is 0xFF. */
  const DefaultAccentColor: nat := 0xFFBD_0082

  /** A "last opened" entry; a date is its tick count. */
  datatype SettingsItem = SettingsItem(Path: string, LastOpened: int)
  {
    /** `FileName`: the file name of the path without its extension, so never a directory path. */
    function FileName(): (r: string)
      ensures Paths.DirectorySeparator !in r
      ensures |r| <= |Paths.GetFileName(Path)| && r == Paths.GetFileName(Path)[..|r|]
    {
      Paths.GetFileNameWithoutExtension(Path)
    }
  }

  /** An XML attribute as the reader gives it: its name and its raw inner XML. */
  datatype XmlAttribute = XmlAttribute(Name: string, InnerXml: string)

  /**
   * An XML node: its name, its raw inner XML, its attributes (absent on
   * nodes that are not elements) and its child nodes.
   */
  datatype XmlNode = XmlNode(Name: string, InnerXml: string, Attributes: Option<seq<XmlAttribute>>, ChildNodes: seq<XmlNode>)

  /**
   * What the settings code asks of the outside world: the default settings
   * path, whether a file exists, the root element of the document a file
   * holds (none when `XmlDocument.Load` throws on it: an empty,
   * declaration-only or malformed document), and the "G" date pattern in
   * both directions.
   */
  datatype Env = Env(
    SettingsPath: string,
    Exists: string -> bool,
    Document: string -> Option<XmlNode>,
    ParseDate: string -> Option<int>,
    FormatDate: int -> string)

  /** The four settings, as one value. */
  datatype Values = Values(Theme: int, AccentColor: nat, LastItems: seq<Option<SettingsItem>>, UseBlur: bool)

  /** The file both `Load` and `Save` use: the given one if it is named and exists, else the default path. */
  function Resolve(fileName: Option<string>, env: Env): (r: string)
    ensures fileName.Some? && !IsBlank(fileName.value) && env.Exists(fileName.value) ==> r == fileName.value
    ensures fileName.None? || IsBlank(fileName.value) || !env.Exists(fileName.value) ==> r == env.SettingsPath
  {
    if fileName.None? || IsBlank(fileName.value) || !env.Exists(fileName.value) then env.SettingsPath
    else fileName.value
  }

  // ---------------------------------------------------------------------
  // Loading: one child node of the root
  // ---------------------------------------------------------------------

  /** The case-insensitive name a node is dispatched on. */
  function Key(n: XmlNode): string
  {
    ToLowerInvariant(n.Name)
  }

  /** The keys of a run of nodes, in order (the `applied` list once all are seen). */
  function Keys(nodes: seq<XmlNode>): (r: seq<string>)
    ensures |r| == |nodes|
    ensures forall i :: 0 <= i < |nodes| ==> r[i] == Key(nodes[i])
  {
    seq(|nodes|, i requires 0 <= i < |nodes| => Key(nodes[i]))
  }

  /**
   * The value of the attribute loop: each "date" attribute replaces the
   * text only while the text so far is blank.
   */
  function DateText(attrs: seq<XmlAttribute>): string
  {
    if attrs == [] then ""
    else
      var date := DateText(attrs[..|attrs| - 1]);
      var a := attrs[|attrs| - 1];
      if ToLowerInvariant(a.Name) == "date" then (if IsBlank(date) then a.InnerXml else date) else date
  }

  /** The first "date" attribute whose text is not blank. */
  function FirstDate(attrs: seq<XmlAttribute>): (r: Option<string>)
    ensures r.Some? ==> !IsBlank(r.value)
  {
    if attrs == [] then None
    else if ToLowerInvariant(attrs[0].Name) == "date" && !IsBlank(attrs[0].InnerXml) then Some(attrs[0].InnerXml)
    else FirstDate(attrs[1..])
  }

  /**
   * The date text is the first non-blank "date" attribute; when there is
   * none, it is blank.
   */
  lemma {:induction false} DateTextIsFirstNonBlank(attrs: seq<XmlAttribute>)
    ensures FirstDate(attrs).Some? ==> DateText(attrs) == FirstDate(attrs).value
    ensures FirstDate(attrs).None? ==> IsBlank(DateText(attrs))
    decreases |attrs|
  {
    if attrs != [] {
      var init := attrs[..|attrs| - 1];
      DateTextIsFirstNonBlank(init);
      FirstDateSnoc(init, attrs[|attrs| - 1]);
      assert init + [attrs[|attrs| - 1]] == attrs;
    }
  }

  /** Scanning one more attribute only matters when no non-blank date was found yet. */
  lemma {:induction false} FirstDateSnoc(attrs: seq<XmlAttribute>, a: XmlAttribute)
    ensures FirstDate(attrs + [a]) ==
      if FirstDate(attrs).Some? then FirstDate(attrs)
      else if ToLowerInvariant(a.Name) == "date" && !IsBlank(a.InnerXml) then Some(a.InnerXml)
      else None
    decreases |attrs|
  {
    if attrs == [] {
      assert [a][1..] == [];
    } else {
      assert (attrs + [a])[1..] == attrs[1..] + [a];
      FirstDateSnoc(attrs[1..], a);
    }
  }

  /**
   * Slot `i` of the items list: filled only for an "item" element whose
   * path is not blank and exists and whose date text parses.
   */
  function ItemOf(n: XmlNode, env: Env): (r: Option<SettingsItem>)
    ensures r.Some? <==>
      && Key(n) == "item" && n.Attributes.Some?
      && !IsBlank(n.InnerXml) && env.Exists(n.InnerXml)
      && env.ParseDate(DateText(n.Attributes.value)).Some?
    ensures r.Some? ==>
      r.value == SettingsItem(n.InnerXml, env.ParseDate(DateText(n.Attributes.value)).value)
  {
    if Key(n) != "item" || n.Attributes.None? then None
    else
      var path := n.InnerXml;
      var date := DateText(n.Attributes.value);
      if !IsBlank(path) && env.Exists(path) && env.ParseDate(date).Some? then
        Some(SettingsItem(path, env.ParseDate(date).value))
      else None
  }

  /** The items list an "items" node yields: one slot per child node. */
  function ItemsOf(children: seq<XmlNode>, env: Env): (r: seq<Option<SettingsItem>>)
    ensures |r| == |children|
    ensures forall i :: 0 <= i < |children| ==> r[i] == ItemOf(children[i], env)
  {
    seq(|children|, i requires 0 <= i < |children| => ItemOf(children[i], env))
  }

  /**
   * The effect of one child node of the root, by its key: "theme" and
   * "color" set their value when the text parses, "blur" is set to
   * whether the text is "true", "items" replaces the list; any other key
   * changes nothing.
   */
  function ApplyNode(v: Values, n: XmlNode, env: Env): (r: Values)
    ensures Key(n) != "theme" ==> r.Theme == v.Theme
    ensures Key(n) != "color" ==> r.AccentColor == v.AccentColor
    ensures Key(n) != "blur" ==> r.UseBlur == v.UseBlur
    ensures Key(n) != "items" ==> r.LastItems == v.LastItems
    ensures Key(n) == "theme" ==>
      r.Theme == (var t := ParseInt32(ToLowerInvariant(n.InnerXml)); if t.Some? then t.value else v.Theme)
    ensures Key(n) == "color" ==>
      r.AccentColor == (var c := ParseUInt32(ToLowerInvariant(n.InnerXml)); if c.Some? then c.value else v.AccentColor)
    ensures Key(n) == "blur" ==> (r.UseBlur <==> ToLowerInvariant(n.InnerXml) == "true")
    ensures Key(n) == "items" ==> r.LastItems == ItemsOf(n.ChildNodes, env)
  {
    var key := Key(n);
    if key == "theme" then
      var t := ParseInt32(ToLowerInvariant(n.InnerXml));
      if t.Some? then v.(Theme := t.value) else v
    else if key == "color" then
      var c := ParseUInt32(ToLowerInvariant(n.InnerXml));
      if c.Some? then v.(AccentColor := c.value) else v
    else if key == "blur" then
      v.(UseBlur := ToLowerInvariant(n.InnerXml) == "true")
    else if key == "items" then
      v.(LastItems := ItemsOf(n.ChildNodes, env))
    else v
  }

  /** The root's child nodes in order, each applied unless a node with its key came before. */
  function ApplyNodes(v: Values, nodes: seq<XmlNode>, env: Env): Values
  {
    if nodes == [] then v
    else
      var prev := ApplyNodes(v, nodes[..|nodes| - 1], env);
      var last := nodes[|nodes| - 1];
      if Key(last) in Keys(nodes[..|nodes| - 1]) then prev else ApplyNode(prev, last, env)
  }

  /** The first node with the given key. */
  function FirstNamed(nodes: seq<XmlNode>, key: string): (r: Option<XmlNode>)
    ensures r.Some? ==> r.value in nodes && Key(r.value) == key
  {
    if nodes == [] then None
    else if Key(nodes[0]) == key then Some(nodes[0])
    else FirstNamed(nodes[1..], key)
  }

  /** A key has been seen exactly when a node with that key exists. */
  lemma {:induction false} KeysFirstNamed(nodes: seq<XmlNode>, key: string)
    ensures key in Keys(nodes) <==> FirstNamed(nodes, key).Some?
    decreases |nodes|
  {
    if nodes != [] {
      KeysFirstNamed(nodes[1..], key);
      assert Keys(nodes) == [Key(nodes[0])] + Keys(nodes[1..]);
    }
  }

  /** One more node only matters for a key not seen before. */
  lemma {:induction false} FirstNamedSnoc(nodes: seq<XmlNode>, n: XmlNode, key: string)
    ensures FirstNamed(nodes + [n], key) ==
      if FirstNamed(nodes, key).Some? then FirstNamed(nodes, key)
      else if Key(n) == key then Some(n)
      else None
    decreases |nodes|
  {
    if nodes == [] {
      assert [n][1..] == [];
    } else {
      assert (nodes + [n])[1..] == nodes[1..] + [n];
      FirstNamedSnoc(nodes[1..], n, key);
    }
  }

  /** The setting a key names, as a value of its own kind; other keys name none. */
  datatype Setting = ThemeSetting(theme: int) | ColorSetting(color: nat) | BlurSetting(blur: bool)
                   | ItemsSetting(items: seq<Option<SettingsItem>>) | NoSetting

  function SettingOf(v: Values, key: string): Setting
  {
    if key == "theme" then ThemeSetting(v.Theme)
    else if key == "color" then ColorSetting(v.AccentColor)
    else if key == "blur" then BlurSetting(v.UseBlur)
    else if key == "items" then ItemsSetting(v.LastItems)
    else NoSetting
  }

  /**
   * Only the first node of each name counts: every setting is what the
   * first node with its key makes of the starting value, and is
   * unchanged when there is no such node.
   */
  lemma {:induction false} FirstNodeWins(v: Values, nodes: seq<XmlNode>, env: Env, key: string)
    ensures SettingOf(ApplyNodes(v, nodes, env), key) ==
      var f := FirstNamed(nodes, key); if f.Some? then SettingOf(ApplyNode(v, f.value, env), key) else SettingOf(v, key)
    decreases |nodes|
  {
    if nodes != [] {
      var init := nodes[..|nodes| - 1];
      var last := nodes[|nodes| - 1];
      assert init + [last] == nodes;
      var prev := ApplyNodes(v, init, env);
      assert ApplyNodes(v, nodes, env) == if Key(last) in Keys(init) then prev else ApplyNode(prev, last, env);
      FirstNodeWins(v, init, env, key);
      FirstNamedSnoc(init, last, key);
      KeysFirstNamed(init, key);
      if Key(last) !in Keys(init) {
        if Key(last) == key {
          ApplyNodeSame(prev, v, last, env, key);
        } else {
          ApplyNodeOther(prev, last, env, key);
        }
      }
    }
  }

  /** A node leaves the settings of other keys alone. */
  lemma ApplyNodeOther(v: Values, n: XmlNode, env: Env, key: string)
    requires Key(n) != key
    ensures SettingOf(ApplyNode(v, n, env), key) == SettingOf(v, key)
  {
  }

  /** What a node makes of its own setting depends only on that setting. */
  lemma ApplyNodeSame(a: Values, b: Values, n: XmlNode, env: Env, key: string)
    requires SettingOf(a, key) == SettingOf(b, key)
    ensures SettingOf(ApplyNode(a, n, env), key) == SettingOf(ApplyNode(b, n, env), key)
  {
  }

  // ---------------------------------------------------------------------
  // The descending, stable sort on `LastOpened`
  // ---------------------------------------------------------------------

  /** No slot is null. */
  predicate AllPresent(slots: seq<Option<SettingsItem>>)
  {
    forall i :: 0 <= i < |slots| ==> slots[i].Some?
  }

  /** The items of slots that are all filled. */
  function Present(slots: seq<Option<SettingsItem>>): (r: seq<SettingsItem>)
    requires AllPresent(slots)
    ensures |r| == |slots|
    ensures forall i :: 0 <= i < |slots| ==> slots[i] == Some(r[i])
  {
    seq(|slots|, i requires 0 <= i < |slots| => slots[i].value)
  }

  /** Items as filled slots. */
  function Wrap(items: seq<SettingsItem>): (r: seq<Option<SettingsItem>>)
    ensures |r| == |items| && AllPresent(r)
    ensures forall i :: 0 <= i < |items| ==> r[i] == Some(items[i])
  {
    seq(|items|, i requires 0 <= i < |items| => Some(items[i]))
  }

  /** Most recent first. */
  predicate Descending(s: seq<SettingsItem>)
  {
    forall i, j :: 0 <= i < j < |s| ==> s[i].LastOpened >= s[j].LastOpened
  }

  /** `x` placed before the first item that is not more recent than it. */
  function Insert(x: SettingsItem, s: seq<SettingsItem>): seq<SettingsItem>
  {
    if s == [] || s[0].LastOpened <= x.LastOpened then [x] + s
    else [s[0]] + Insert(x, s[1..])
  }

  /** `OrderByDescending(it => it.LastOpened)`: an insertion sort that keeps equal dates in order. */
  function SortDescending(s: seq<SettingsItem>): seq<SettingsItem>
  {
    if s == [] then [] else Insert(s[0], SortDescending(s[1..]))
  }

  /** The items with a given date, in order. */
  function WithDate(s: seq<SettingsItem>, d: int): seq<SettingsItem>
  {
    if s == [] then []
    else (if s[0].LastOpened == d then [s[0]] else []) + WithDate(s[1..], d)
  }

  /** Inserting keeps a list most recent first. */
  lemma {:induction false} InsertSorted(x: SettingsItem, s: seq<SettingsItem>)
    requires Descending(s)
    ensures Descending(Insert(x, s))
    decreases |s|
  {
    if s != [] && s[0].LastOpened > x.LastOpened {
      InsertSorted(x, s[1..]);
      InsertMultiset(x, s[1..]);
      var t := Insert(x, s[1..]);
      forall k | 0 <= k < |t|
        ensures t[k].LastOpened <= s[0].LastOpened
      {
        assert t[k] in multiset(t);
        if t[k] != x {
          assert t[k] in multiset(s[1..]);
          var m :| 0 <= m < |s[1..]| && s[1..][m] == t[k];
          assert s[m + 1] == t[k];
        }
      }
      assert Insert(x, s) == [s[0]] + t;
    }
  }

  /** Inserting adds exactly `x`. */
  lemma {:induction false} InsertMultiset(x: SettingsItem, s: seq<SettingsItem>)
    ensures multiset(Insert(x, s)) == multiset(s) + multiset{x}
    decreases |s|
  {
    if s != [] && s[0].LastOpened > x.LastOpened {
      InsertMultiset(x, s[1..]);
      assert s == [s[0]] + s[1..];
    }
  }

  /** Inserting puts `x` before every item of its own date. */
  lemma {:induction false} InsertWithDate(x: SettingsItem, s: seq<SettingsItem>, d: int)
    ensures WithDate(Insert(x, s), d) == (if x.LastOpened == d then [x] else []) + WithDate(s, d)
    decreases |s|
  {
    if s == [] || s[0].LastOpened <= x.LastOpened {
      WithDateCons(x, s, d);
    } else {
      InsertWithDate(x, s[1..], d);
      var t := Insert(x, s[1..]);
      assert Insert(x, s) == [s[0]] + t;
      WithDateCons(s[0], t, d);
      WithDateCons(s[0], s[1..], d);
      assert s == [s[0]] + s[1..];
    }
  }

  /** The items of a date in a list with a given head. */
  lemma WithDateCons(h: SettingsItem, t: seq<SettingsItem>, d: int)
    ensures WithDate([h] + t, d) == (if h.LastOpened == d then [h] else []) + WithDate(t, d)
  {
    assert ([h] + t)[1..] == t;
  }

  /**
   * The sort's result is most recent first, a permutation of its input,
   * and keeps items of equal date in their input order.
   */
  lemma {:induction false} SortProperties(s: seq<SettingsItem>)
    ensures Descending(SortDescending(s))
    ensures multiset(SortDescending(s)) == multiset(s)
    ensures forall d :: WithDate(SortDescending(s), d) == WithDate(s, d)
    decreases |s|
  {
    if s != [] {
      SortProperties(s[1..]);
      InsertSorted(s[0], SortDescending(s[1..]));
      InsertMultiset(s[0], SortDescending(s[1..]));
      assert s == [s[0]] + s[1..];
      forall d
        ensures WithDate(SortDescending(s), d) == WithDate(s, d)
      {
        InsertWithDate(s[0], SortDescending(s[1..]), d);
      }
    }
  }

  /** Sorting a list that is already most recent first changes nothing, so sorting twice is sorting once. */
  lemma {:induction false} SortKeepsSorted(s: seq<SettingsItem>)
    requires Descending(s)
    ensures SortDescending(s) == s
    decreases |s|
  {
    if s != [] {
      assert Descending(s[1..]);
      SortKeepsSorted(s[1..]);
      assert s == [s[0]] + s[1..];
    }
  }

  lemma SortIdempotent(s: seq<SettingsItem>)
    ensures SortDescending(SortDescending(s)) == SortDescending(s)
  {
    SortProperties(s);
    SortKeepsSorted(SortDescending(s));
  }

  /**
   * The sort at the end of loading and at the start of saving: the key
   * selector throws on a null slot, so it fails when any slot is empty.
   */
  function SortSlots(slots: seq<Option<SettingsItem>>): (r: Option<seq<Option<SettingsItem>>>)
    ensures r.Some? <==> AllPresent(slots)
    ensures r.Some? ==> AllPresent(r.value) && Descending(Present(r.value))
    ensures r.Some? ==> multiset(Present(r.value)) == multiset(Present(slots))
    ensures r.Some? ==> forall d :: WithDate(Present(r.value), d) == WithDate(Present(slots), d)
  {
    if AllPresent(slots) then
      var sorted := SortDescending(Present(slots));
      SortProperties(Present(slots));
      assert Present(Wrap(sorted)) == sorted;
      Some(Wrap(sorted))
    else None
  }

  // ---------------------------------------------------------------------
  // Loading, as a whole
  // ---------------------------------------------------------------------

  /**
   * `Load` from a starting value: a missing resolved file leaves everything
   * as it was; a document the parser rejects fails (the second component
   * false) before anything changes; otherwise the root's child nodes are
   * applied and the items list sorted, which fails on an empty slot,
   * leaving the list unsorted. A parsed document always has a root element,
   * so the source's null-root return is never taken.
   */
  function LoadInto(v: Values, fileName: Option<string>, env: Env): (Values, bool)
  {
    var name := Resolve(fileName, env);
    if !env.Exists(name) then (v, true)
    else if env.Document(name).None? then (v, false)
    else
      var r := ApplyNodes(v, env.Document(name).value.ChildNodes, env);
      var sorted := SortSlots(r.LastItems);
      if sorted.Some? then (r.(LastItems := sorted.value), true) else (r, false)
  }

  /** Neither the given file nor the default one exists: nothing changes. */
  lemma LoadWithoutFile(v: Values, fileName: Option<string>, env: Env)
    requires !env.Exists(env.SettingsPath) && (fileName.None? || !env.Exists(fileName.value))
    ensures LoadInto(v, fileName, env) == (v, true)
  {
  }

  /**
   * An existing file the parser rejects (an empty document among them, such
   * as the one a failed `Save` leaves) makes loading fail with nothing
   * changed.
   */
  lemma LoadUnparsable(v: Values, fileName: Option<string>, env: Env)
    requires env.Exists(Resolve(fileName, env)) && env.Document(Resolve(fileName, env)).None?
    ensures LoadInto(v, fileName, env) == (v, false)
  {
  }

  /**
   * A successful load leaves the items list most recent first and a
   * permutation of the slots the document yields; it fails exactly when
   * one of those slots is left empty.
   */
  lemma LoadSortsItems(v: Values, fileName: Option<string>, env: Env)
    requires var name := Resolve(fileName, env); env.Exists(name) && env.Document(name).Some?
    ensures var name := Resolve(fileName, env);
      var r := ApplyNodes(v, env.Document(name).value.ChildNodes, env);
      var (loaded, ok) := LoadInto(v, fileName, env);
      && (ok <==> AllPresent(r.LastItems))
      && (ok ==> AllPresent(loaded.LastItems) && Descending(Present(loaded.LastItems))
                 && multiset(Present(loaded.LastItems)) == multiset(Present(r.LastItems)))
      && (!ok ==> loaded == r)
  {
  }

  // ---------------------------------------------------------------------
  // Saving
  // ---------------------------------------------------------------------

  const XmlDeclaration: string := "<?xml version=\"1.0\" encoding=\"UTF-8\"?>"

  /** An element written on one line. */
  function ElementLine(name: string, attrs: string, inner: string): string
  {
    "<" + name + attrs + ">" + inner + "</" + name + ">"
  }

  /** The attribute text of an element: ` Name="value"` for each. */
  function AttributeText(attrs: seq<XmlAttribute>): string
  {
    if attrs == [] then ""
    else AttributeText(attrs[..|attrs| - 1]) + " " + attrs[|attrs| - 1].Name + "=\"" + attrs[|attrs| - 1].InnerXml + "\""
  }

  /** A leaf element on one line. */
  function LeafLine(n: XmlNode): string
  {
    ElementLine(n.Name, if n.Attributes.Some? then AttributeText(n.Attributes.value) else "", n.InnerXml)
  }

  /** Leaf elements, one line each. */
  function LeafLines(ns: seq<XmlNode>): (r: seq<string>)
    ensures |r| == |ns|
    ensures forall i :: 0 <= i < |ns| ==> r[i] == LeafLine(ns[i])
  {
    seq(|ns|, i requires 0 <= i < |ns| => LeafLine(ns[i]))
  }

  /** A child of the root: a leaf on one line, or an open line, its leaves and a close line. */
  function ChildLines(n: XmlNode): seq<string>
  {
    if n.ChildNodes == [] then [LeafLine(n)]
    else ["<" + n.Name + ">"] + LeafLines(n.ChildNodes) + ["</" + n.Name + ">"]
  }

  /** The children of the root, in order. */
  function ChildrenLines(ns: seq<XmlNode>): seq<string>
  {
    if ns == [] then [] else ChildrenLines(ns[..|ns| - 1]) + ChildLines(ns[|ns| - 1])
  }

  /** A two-level document, line by line, after the declaration. */
  function DocumentLines(root: XmlNode): seq<string>
  {
    [XmlDeclaration, "<" + root.Name + ">"] + ChildrenLines(root.ChildNodes) + ["</" + root.Name + ">"]
  }

  /** The `<Item>` element written for an entry: its date attribute and its escaped path. */
  function ItemNode(item: SettingsItem, env: Env): XmlNode
  {
    XmlNode("Item", Tools.ToXML(item.Path), Some([XmlAttribute("Date", env.FormatDate(item.LastOpened))]), [])
  }

  /** The `<Item>` elements for a list of entries. */
  function ItemNodes(items: seq<SettingsItem>, env: Env): (r: seq<XmlNode>)
    ensures |r| == |items|
    ensures forall i :: 0 <= i < |items| ==> r[i] == ItemNode(items[i], env)
  {
    seq(|items|, i requires 0 <= i < |items| => ItemNode(items[i], env))
  }

  /** A leaf element without attributes. */
  function Leaf(name: string, text: string): XmlNode
  {
    XmlNode(name, text, Some([]), [])
  }

  /**
   * The element tree `Save` writes: Theme, Color and Blur, then an Items
   * element only when there are entries.
   */
  function SavedTree(theme: int, color: nat, blur: bool, items: seq<SettingsItem>, env: Env): XmlNode
  {
    var leaves := [Leaf("Theme", IntToString(theme)), Leaf("Color", NatToString(color)), Leaf("Blur", if blur then "true" else "false")];
    var block := if items == [] then [] else [XmlNode("Items", "", Some([]), ItemNodes(items, env))];
    XmlNode("root", "", Some([]), leaves + block)
  }

  /** One `<Item>` line. */
  function ItemLine(item: SettingsItem, env: Env): string
  {
    "<Item Date=\"" + env.FormatDate(item.LastOpened) + "\">" + Tools.ToXML(item.Path) + "</Item>"
  }

  /** The `<Item>` lines for a list of entries. */
  function ItemLines(items: seq<SettingsItem>, env: Env): (r: seq<string>)
    ensures |r| == |items|
    ensures forall i :: 0 <= i < |items| ==> r[i] == ItemLine(items[i], env)
  {
    seq(|items|, i requires 0 <= i < |items| => ItemLine(items[i], env))
  }

  /** The Items block: nothing for an empty list, else an open line, a line per entry and a close line. */
  function ItemsBlock(items: seq<SettingsItem>, env: Env): seq<string>
  {
    if items == [] then [] else ["<Items>"] + ItemLines(items, env) + ["</Items>"]
  }

  /** A one-line element without attributes, with its tags spelled out. */
  lemma LeafLineText(name: string, text: string, open: string, close: string)
    requires open == "<" + name + ">" && close == "</" + name + ">"
    ensures LeafLine(Leaf(name, text)) == open + text + close
  {
  }

  /** The `<Item>` line is the item's element, rendered. */
  lemma ItemLineIsLeaf(item: SettingsItem, env: Env)
    ensures LeafLine(ItemNode(item, env)) == ItemLine(item, env)
  {
    ItemTags();
    OneAttribute("Item", "Date", env.FormatDate(item.LastOpened), Tools.ToXML(item.Path), "<Item Date=\"", "\">", "</Item>");
  }

  /** The tags of an `<Item>` line, spelled out. */
  lemma ItemTags()
    ensures "<" + "Item" + " " + "Date" + "=\"" == "<Item Date=\""
    ensures "\"" + ">" == "\">" && "</" + "Item" + ">" == "</Item>"
  {
  }

  /** An element with one attribute, on one line. */
  lemma OneAttribute(name: string, attr: string, value: string, inner: string, open: string, mid: string, close: string)
    requires open == "<" + name + " " + attr + "=\"" && mid == "\"" + ">" && close == "</" + name + ">"
    ensures ElementLine(name, AttributeText([XmlAttribute(attr, value)]), inner) == open + value + mid + inner + close
  {
    assert [XmlAttribute(attr, value)][..0] == [];
  }

  /** The root's children rendered one after the other. */
  lemma ChildrenLinesSnoc(ns: seq<XmlNode>, n: XmlNode)
    ensures ChildrenLines(ns + [n]) == ChildrenLines(ns) + ChildLines(n)
  {
    assert (ns + [n])[..|ns|] == ns;
  }

  /** An element with leaf children: an open line, a line per child, a close line. */
  lemma BlockLines(name: string, children: seq<XmlNode>, open: string, close: string)
    requires children != [] && open == "<" + name + ">" && close == "</" + name + ">"
    ensures ChildLines(XmlNode(name, "", Some([]), children)) == [open] + LeafLines(children) + [close]
  {
  }

  /** The saved Items element, rendered, is the Items block. */
  lemma ItemsElementLines(items: seq<SettingsItem>, env: Env)
    requires items != []
    ensures ChildLines(XmlNode("Items", "", Some([]), ItemNodes(items, env))) == ItemsBlock(items, env)
  {
    assert "<" + "Items" + ">" == "<Items>" && "</" + "Items" + ">" == "</Items>";
    BlockLines("Items", ItemNodes(items, env), "<Items>", "</Items>");
    forall i | 0 <= i < |items|
      ensures LeafLines(ItemNodes(items, env))[i] == ItemLines(items, env)[i]
    {
      ItemLineIsLeaf(items[i], env);
    }
    assert LeafLines(ItemNodes(items, env)) == ItemLines(items, env);
  }

  /** Three leaves, one line each. */
  lemma ThreeLeaves(a: XmlNode, b: XmlNode, c: XmlNode)
    requires a.ChildNodes == [] && b.ChildNodes == [] && c.ChildNodes == []
    ensures ChildrenLines([a, b, c]) == [LeafLine(a), LeafLine(b), LeafLine(c)]
  {
    ChildrenLinesSnoc([], a);
    ChildrenLinesSnoc([a], b);
    ChildrenLinesSnoc([a, b], c);
    assert [a] == [] + [a] && [a, b] == [a] + [b] && [a, b, c] == [a, b] + [c];
  }

  /** The lines of the saved root's children. */
  lemma SavedChildrenLines(theme: int, color: nat, blur: bool, items: seq<SettingsItem>, env: Env)
    ensures ChildrenLines(SavedTree(theme, color, blur, items, env).ChildNodes) ==
      [LeafLine(Leaf("Theme", IntToString(theme))), LeafLine(Leaf("Color", NatToString(color))),
       LeafLine(Leaf("Blur", if blur then "true" else "false"))] + ItemsBlock(items, env)
  {
    var a, b, c := Leaf("Theme", IntToString(theme)), Leaf("Color", NatToString(color)), Leaf("Blur", if blur then "true" else "false");
    ThreeLeaves(a, b, c);
    if items != [] {
      var block := XmlNode("Items", "", Some([]), ItemNodes(items, env));
      ChildrenLinesSnoc([a, b, c], block);
      ItemsElementLines(items, env);
    } else {
      assert [a, b, c] + [] == [a, b, c];
    }
  }

  /** The document's frame: the declaration, the root's open line, its children, its close line. */
  lemma DocumentFrame(root: XmlNode, open: string, close: string)
    requires open == "<" + root.Name + ">" && close == "</" + root.Name + ">"
    ensures DocumentLines(root) == [XmlDeclaration, open] + ChildrenLines(root.ChildNodes) + [close]
  {
  }

  /**
   * The line layout `Save` writes: the declaration, `<root>`, the Theme,
   * Color and Blur lines, the Items block only for a non-empty list with
   * one line per entry and its path escaped, and `</root>`.
   */
  lemma SavedLayout(theme: int, color: nat, blur: bool, items: seq<SettingsItem>, env: Env)
    ensures DocumentLines(SavedTree(theme, color, blur, items, env)) ==
      [XmlDeclaration, "<root>",
       "<Theme>" + IntToString(theme) + "</Theme>",
       "<Color>" + NatToString(color) + "</Color>",
       "<Blur>" + (if blur then "true" else "false") + "</Blur>"]
      + ItemsBlock(items, env) + ["</root>"]
  {
    var tree := SavedTree(theme, color, blur, items, env);
    SavedChildrenLines(theme, color, blur, items, env);
    SavedTags();
    DocumentFrame(tree, "<root>", "</root>");
    LeafLineText("Theme", IntToString(theme), "<Theme>", "</Theme>");
    LeafLineText("Color", NatToString(color), "<Color>", "</Color>");
    LeafLineText("Blur", if blur then "true" else "false", "<Blur>", "</Blur>");
  }

  /** The tags `Save` writes, spelled out. */
  lemma SavedTags()
    ensures "<" + "root" + ">" == "<root>" && "</" + "root" + ">" == "</root>"
    ensures "<" + "Theme" + ">" == "<Theme>" && "</" + "Theme" + ">" == "</Theme>"
    ensures "<" + "Color" + ">" == "<Color>" && "</" + "Color" + ">" == "</Color>"
    ensures "<" + "Blur" + ">" == "<Blur>" && "</" + "Blur" + ">" == "</Blur>"
  {
  }

  // ---------------------------------------------------------------------
  // Round trip
  // ---------------------------------------------------------------------

  /** Text without the five characters `ToXML` escapes. */
  predicate PlainText(s: string)
  {
    forall i :: 0 <= i < |s| ==> s[i] !in "&\"'<>"
  }

  /** The element names `Save` writes, lower-cased. */
  lemma SavedNames()
    ensures ToLowerInvariant("Theme") == "theme" && ToLowerInvariant("Color") == "color"
    ensures ToLowerInvariant("Blur") == "blur" && ToLowerInvariant("Items") == "items"
    ensures ToLowerInvariant("Item") == "item" && ToLowerInvariant("Date") == "date"
  {
  }

  /** Which saved node each setting is read from. */
  lemma SavedFirstNamed(theme: int, color: nat, blur: bool, items: seq<SettingsItem>, env: Env)
    ensures var ns := SavedTree(theme, color, blur, items, env).ChildNodes;
      && FirstNamed(ns, "theme") == Some(ns[0])
      && FirstNamed(ns, "color") == Some(ns[1])
      && FirstNamed(ns, "blur") == Some(ns[2])
      && FirstNamed(ns, "items") == if items == [] then None else Some(ns[3])
  {
    var ns := SavedTree(theme, color, blur, items, env).ChildNodes;
    SavedNames();
    assert "theme" != "color" by { assert "theme"[0] != "color"[0]; }
    assert "theme" != "items" by { assert "theme"[0] != "items"[0]; }
    assert "color" != "items" by { assert "color"[0] != "items"[0]; }
    var ns1 := ns[1..];
    var ns2 := ns1[1..];
    var ns3 := ns2[1..];
    assert ns1[0] == ns[1] && ns2[0] == ns[2];
    FirstNamedSkip(ns, "color");
    FirstNamedSkip(ns, "blur");
    FirstNamedSkip(ns1, "blur");
    FirstNamedSkip(ns, "items");
    FirstNamedSkip(ns1, "items");
    FirstNamedSkip(ns2, "items");
    if items == [] {
      assert ns3 == [];
    } else {
      assert ns3[0] == ns[3];
    }
  }

  /** A node of another key is passed over. */
  lemma FirstNamedSkip(ns: seq<XmlNode>, key: string)
    requires ns != [] && Key(ns[0]) != key
    ensures FirstNamed(ns, key) == FirstNamed(ns[1..], key)
  {
  }

  /**
   * Reading back the tree `Save` writes restores every setting, provided
   * each saved path still exists, needs no escaping and its formatted date
   * parses back to the same date, and the saved list is already sorted (as
   * `Save` leaves it). An empty list writes no Items element, so the
   * loaded list is then the one loaded into, here empty.
   */
  lemma SaveLoadRoundTrip(v: Values, items: seq<SettingsItem>, w: Values, fileName: Option<string>, env: Env)
    requires Int32Min <= v.Theme <= Int32Max && v.AccentColor <= UInt32Max
    requires v.LastItems == Wrap(items) && Descending(items)
    requires forall i :: 0 <= i < |items| ==>
      && !IsBlank(items[i].Path) && env.Exists(items[i].Path) && PlainText(items[i].Path)
      && env.ParseDate(env.FormatDate(items[i].LastOpened)) == Some(items[i].LastOpened)
    requires items == [] ==> w.LastItems == []
    requires var name := Resolve(fileName, env);
      env.Exists(name) && env.Document(name) == Some(SavedTree(v.Theme, v.AccentColor, v.UseBlur, items, env))
    ensures LoadInto(w, fileName, env) == (v, true)
  {
    var ns := SavedTree(v.Theme, v.AccentColor, v.UseBlur, items, env).ChildNodes;
    var r := ApplyNodes(w, ns, env);
    SavedRead(v, items, w, env);
    assert r == v;
    SortKeepsSorted(items);
    assert Present(v.LastItems) == items;
  }

  /** The values read from the saved tree, before the final sort. */
  lemma SavedRead(v: Values, items: seq<SettingsItem>, w: Values, env: Env)
    requires Int32Min <= v.Theme <= Int32Max && v.AccentColor <= UInt32Max
    requires v.LastItems == Wrap(items)
    requires forall i :: 0 <= i < |items| ==>
      && !IsBlank(items[i].Path) && env.Exists(items[i].Path) && PlainText(items[i].Path)
      && env.ParseDate(env.FormatDate(items[i].LastOpened)) == Some(items[i].LastOpened)
    requires items == [] ==> w.LastItems == []
    ensures ApplyNodes(w, SavedTree(v.Theme, v.AccentColor, v.UseBlur, items, env).ChildNodes, env) == v
  {
    var ns := SavedTree(v.Theme, v.AccentColor, v.UseBlur, items, env).ChildNodes;
    SavedFirstNamed(v.Theme, v.AccentColor, v.UseBlur, items, env);
    ReadTheme(w, ns, env, v.Theme);
    ReadColor(w, ns, env, v.AccentColor);
    ReadBlur(w, ns, env, v.UseBlur);
    if items == [] {
      FirstNodeWins(w, ns, env, "items");
    } else {
      ReadItems(w, ns, env, items);
    }
  }

  lemma ReadTheme(w: Values, ns: seq<XmlNode>, env: Env, theme: int)
    requires Int32Min <= theme <= Int32Max
    requires FirstNamed(ns, "theme") == Some(Leaf("Theme", IntToString(theme)))
    ensures ApplyNodes(w, ns, env).Theme == theme
  {
    FirstNodeWins(w, ns, env, "theme");
    LowerIntToString(theme);
    IntRoundTrip(theme);
  }

  lemma ReadColor(w: Values, ns: seq<XmlNode>, env: Env, color: nat)
    requires color <= UInt32Max
    requires FirstNamed(ns, "color") == Some(Leaf("Color", NatToString(color)))
    ensures ApplyNodes(w, ns, env).AccentColor == color
  {
    FirstNodeWins(w, ns, env, "color");
    LowerKeepsDigits(NatToString(color));
    UIntRoundTrip(color);
  }

  lemma ReadBlur(w: Values, ns: seq<XmlNode>, env: Env, blur: bool)
    requires FirstNamed(ns, "blur") == Some(Leaf("Blur", if blur then "true" else "false"))
    ensures ApplyNodes(w, ns, env).UseBlur == blur
  {
    FirstNodeWins(w, ns, env, "blur");
    BlurRoundTrip(blur);
  }

  lemma ReadItems(w: Values, ns: seq<XmlNode>, env: Env, items: seq<SettingsItem>)
    requires forall i :: 0 <= i < |items| ==>
      && !IsBlank(items[i].Path) && env.Exists(items[i].Path) && PlainText(items[i].Path)
      && env.ParseDate(env.FormatDate(items[i].LastOpened)) == Some(items[i].LastOpened)
    requires FirstNamed(ns, "items") == Some(XmlNode("Items", "", Some([]), ItemNodes(items, env)))
    ensures ApplyNodes(w, ns, env).LastItems == Wrap(items)
  {
    FirstNodeWins(w, ns, env, "items");
    ItemsRoundTrip(items, env);
  }

  /** "true" and "false" read back as written. */
  lemma BlurRoundTrip(blur: bool)
    ensures (ToLowerInvariant(if blur then "true" else "false") == "true") == blur
  {
    if !blur {
      assert ToLowerInvariant("false")[0] == 'f';
    }
  }

  /** Each written `<Item>` element reads back as the entry it came from. */
  lemma ItemsRoundTrip(items: seq<SettingsItem>, env: Env)
    requires forall i :: 0 <= i < |items| ==>
      && !IsBlank(items[i].Path) && env.Exists(items[i].Path) && PlainText(items[i].Path)
      && env.ParseDate(env.FormatDate(items[i].LastOpened)) == Some(items[i].LastOpened)
    ensures ItemsOf(ItemNodes(items, env), env) == Wrap(items)
  {
    forall i | 0 <= i < |items|
      ensures ItemOf(ItemNode(items[i], env), env) == Some(items[i])
    {
      ItemRoundTrip(items[i], env);
    }
  }

  lemma ItemRoundTrip(item: SettingsItem, env: Env)
    requires !IsBlank(item.Path) && env.Exists(item.Path) && PlainText(item.Path)
    requires env.ParseDate(env.FormatDate(item.LastOpened)) == Some(item.LastOpened)
    ensures ItemOf(ItemNode(item, env), env) == Some(item)
  {
    var attrs := [XmlAttribute("Date", env.FormatDate(item.LastOpened))];
    Tools.ToXMLPlainUnchanged(item.Path);
    assert attrs[..0] == [];
    assert DateText(attrs) == env.FormatDate(item.LastOpened);
  }

  /**
   * A path holding one of the five escaped characters does not read back:
   * the written element holds the escaped text, and the reader's raw inner
   * XML keeps it escaped.
   */
  lemma EscapedPathChanges(item: SettingsItem, env: Env)
    requires !PlainText(item.Path)
    ensures ItemOf(ItemNode(item, env), env).Some? ==> ItemOf(ItemNode(item, env), env).value.Path != item.Path
  {
    Tools.ToXMLIsEscapeEach(item.Path);
    Tools.EscapeEachLength(item.Path);
  }

  // ---------------------------------------------------------------------
  // The settings object
  // ---------------------------------------------------------------------

  /** The settings object. */
  class Settings {
    var Theme: int
    var AccentColor: nat
    var LastItems: seq<Option<SettingsItem>>
    var UseBlur: bool

    /** The four settings as one value. */
    function Current(): Values
      reads this
    {
      Values(Theme, AccentColor, LastItems, UseBlur)
    }

    /** Default theme, the default accent colour, no entries, blur on. */
    constructor ()
      ensures Current() == Values(ThemeDefault, DefaultAccentColor, [], true)
    {
      Theme, AccentColor, LastItems, UseBlur := ThemeDefault, DefaultAccentColor, [], true;
    }

    /**
     * `Load`: reads the resolved file and applies its root's child nodes,
     * each name only once, then sorts the entries; `ok` is false where the
     * parser rejects the document, before anything changes, or where the
     * sort throws on an empty slot, after the other settings were applied.
     */
    method Load(fileName: Option<string>, env: Env) returns (ok: bool)
      modifies this
      ensures (Current(), ok) == LoadInto(old(Current()), fileName, env)
    {
      var name := Resolve(fileName, env);
      if !env.Exists(name) {
        return true;
      }
      var root := env.Document(name);
      if root.None? {
        return false;
      }
      ghost var start := Current();
      var nodes := root.value.ChildNodes;
      var applied: seq<string> := [];
      for i := 0 to |nodes|
        invariant applied == Keys(nodes[..i])
        invariant Current() == ApplyNodes(start, nodes[..i], env)
      {
        assert nodes[..i + 1][..i] == nodes[..i];
        var key := ToLowerInvariant(nodes[i].Name);
        assert Keys(nodes[..i + 1]) == applied + [key];
        if key !in applied {
          ApplyNodeTo(nodes[i], env);
        }
        applied := applied + [key];
      }
      assert nodes[..|nodes|] == nodes;
      var sorted := SortSlots(LastItems);
      if sorted.None? {
        return false;
      }
      LastItems := sorted.value;
      return true;
    }

    /** The `switch` of `Load` on one node. */
    method ApplyNodeTo(n: XmlNode, env: Env)
      modifies this
      ensures Current() == ApplyNode(old(Current()), n, env)
    {
      var key := ToLowerInvariant(n.Name);
      if key == "theme" {
        var t := ParseInt32(ToLowerInvariant(n.InnerXml));
        if t.Some? {
          Theme := t.value;
        }
      } else if key == "color" {
        var c := ParseUInt32(ToLowerInvariant(n.InnerXml));
        if c.Some? {
          AccentColor := c.value;
        }
      } else if key == "blur" {
        UseBlur := ToLowerInvariant(n.InnerXml) == "true";
      } else if key == "items" {
        LastItems := LoadItems(n.ChildNodes, env);
      }
    }

    /** The "items" case: a slot per child, filled where the child is a usable entry. */
    static method LoadItems(children: seq<XmlNode>, env: Env) returns (items: seq<Option<SettingsItem>>)
      ensures items == ItemsOf(children, env)
    {
      var slots := new Option<SettingsItem>[|children|](_ => None);
      for i := 0 to |children|
        invariant forall k :: 0 <= k < i ==> slots[k] == ItemOf(children[k], env)
        invariant forall k :: i <= k < |children| ==> slots[k] == None
      {
        var sub := children[i];
        if ToLowerInvariant(sub.Name) != "item" || sub.Attributes.None? {
          continue;
        }
        var path := sub.InnerXml;
        var date := ReadDate(sub.Attributes.value);
        var lastOpened := env.ParseDate(date);
        if !IsBlank(path) && env.Exists(path) && lastOpened.Some? {
          slots[i] := Some(SettingsItem(path, lastOpened.value));
        }
      }
      items := slots[..];
    }

    /** The attribute loop: the first non-blank "date" attribute wins. */
    static method ReadDate(attrs: seq<XmlAttribute>) returns (date: string)
      ensures date == DateText(attrs)
    {
      date := "";
      for i := 0 to |attrs|
        invariant date == DateText(attrs[..i])
      {
        assert attrs[..i + 1][..i] == attrs[..i];
        if ToLowerInvariant(attrs[i].Name) == "date" {
          date := if IsBlank(date) then attrs[i].InnerXml else date;
        }
      }
      assert attrs[..|attrs|] == attrs;
    }

    /**
     * `Save`: sorts the entries, then writes the document line by line to
     * the resolved file. Where the sort throws on an empty slot, the file
     * has already been opened for writing and is left with no lines.
     */
    method Save(fileName: Option<string>, env: Env) returns (target: string, lines: seq<string>, ok: bool)
      modifies this`LastItems
      ensures target == Resolve(fileName, env)
      ensures ok == AllPresent(old(LastItems))
      ensures !ok ==> lines == [] && LastItems == old(LastItems)
      ensures ok ==> LastItems == SortSlots(old(LastItems)).value
      ensures ok ==> lines == DocumentLines(SavedTree(Theme, AccentColor, UseBlur, Present(LastItems), env))
    {
      target := Resolve(fileName, env);
      var sorted := SortSlots(LastItems);
      if sorted.None? {
        return target, [], false;
      }
      LastItems := sorted.value;
      ok := true;
      var items := Present(LastItems);
      var block: seq<string> := [];
      if |items| > 0 {
        var written := WriteItems(items, env);
        block := ["<Items>"] + written + ["</Items>"];
      }
      lines := [XmlDeclaration, "<root>",
                "<Theme>" + IntToString(Theme) + "</Theme>",
                "<Color>" + NatToString(AccentColor) + "</Color>",
                "<Blur>" + (if UseBlur then "true" else "false") + "</Blur>"]
               + block + ["</root>"];
      SavedLayout(Theme, AccentColor, UseBlur, items, env);
    }

    /** The `foreach` over the entries: one `<Item>` line each, in order. */
    static method WriteItems(items: seq<SettingsItem>, env: Env) returns (lines: seq<string>)
      ensures lines == ItemLines(items, env)
    {
      lines := [];
      for i := 0 to |items|
        invariant |lines| == i
        invariant forall k :: 0 <= k < i ==> lines[k] == ItemLine(items[k], env)
      {
        lines := lines + [ItemLine(items[i], env)];
      }
    }
  }
}
