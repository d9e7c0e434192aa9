/** Replacing placeholders throughout a JSON tree (deepReplace in benchmarking/utils/utilities.py,
    and its callers in framework_base.py and benchmarks.py). */
module JsonReplace {
  import opened Json
  import opened JsonMerge
  import Order = ReplaceOrder
  import opened TextReplace
  import opened Wrappers

  /** What `deepReplace` makes of a tree; dictionary keys are left alone. */
  function Replaced(root: Json, pattern: string, replacement: string): Json
    requires pattern != ""
  {
    match root
    case Str(text) => Str(Replace(text, pattern, replacement))
    case Scalar(_) => root
    case List(items) => List(seq(|items|, i requires 0 <= i < |items| => Replaced(items[i], pattern, replacement)))
    case Dict(fields) => Dict(map name | name in fields :: Replaced(fields[name], pattern, replacement))
  }

  /** `deepReplace`, item by item and key by key. */
  method DeepReplace(root: Json, pattern: string, replacement: string) returns (r: Json)
    requires pattern != ""
    ensures r == Replaced(root, pattern, replacement)
    decreases root
  {
    r := root;
    if root.List? {
      for idx := 0 to |root.items|
        invariant r.List? && |r.items| == |root.items|
        invariant forall i | 0 <= i < |root.items| ::
          r.items[i] == if i < idx then Replaced(root.items[i], pattern, replacement) else root.items[i]
      {
        var item := DeepReplace(r.items[idx], pattern, replacement);
        r := List(r.items[idx := item]);
      }
      assert r.items == Replaced(root, pattern, replacement).items;
    } else if root.Dict? {
      var names := root.fields.Keys;
      while names != {}
        invariant names <= root.fields.Keys && r.Dict? && r.fields.Keys == root.fields.Keys
        invariant forall name | name in root.fields ::
          r.fields[name] ==
            if name in names then root.fields[name] else Replaced(root.fields[name], pattern, replacement)
      {
        var name :| name in names;
        var field := DeepReplace(r.fields[name], pattern, replacement);
        r := Dict(r.fields[name := field]);
        names := names - {name};
      }
      assert r.fields == Replaced(root, pattern, replacement).fields;
    } else if root.Str? {
      r := Str(Replace(root.text, pattern, replacement));
    }
  }

  /** Every text of the tree with all placeholders replaced at once. */
  function Substituted(root: Json, values: map<string, string>): Json {
    match root
    case Str(text) => Str(Simultaneous(text, values))
    case Scalar(_) => root
    case List(items) => List(seq(|items|, i requires 0 <= i < |items| => Substituted(items[i], values)))
    case Dict(fields) => Dict(map name | name in fields :: Substituted(fields[name], values))
  }

  /** The tree with its texts blanked. */
  function Shape(root: Json): Json {
    match root
    case Str(_) => Str("")
    case Scalar(_) => root
    case List(items) => List(seq(|items|, i requires 0 <= i < |items| => Shape(items[i])))
    case Dict(fields) => Dict(map name | name in fields :: Shape(fields[name]))
  }

  /** In no text of the tree braces enclose plain text and placeholders. */
  predicate Flat(root: Json) {
    match root
    case Str(text) => !Nests(text)
    case Scalar(_) => true
    case List(items) => forall i | 0 <= i < |items| :: Flat(items[i])
    case Dict(fields) => forall name | name in fields :: Flat(fields[name])
  }

  /** Replacement changes texts only: the shape, the keys and all other values stay. */
  lemma {:induction false} ReplacedKeepsShape(root: Json, pattern: string, replacement: string)
    requires pattern != ""
    ensures Shape(Replaced(root, pattern, replacement)) == Shape(root)
    decreases root
  {
    if root.List? {
      forall i | 0 <= i < |root.items|
        ensures Shape(Replaced(root.items[i], pattern, replacement)) == Shape(root.items[i])
      {
        ReplacedKeepsShape(root.items[i], pattern, replacement);
      }
      assert Shape(Replaced(root, pattern, replacement)).items == Shape(root).items;
    } else if root.Dict? {
      forall name | name in root.fields
        ensures Shape(Replaced(root.fields[name], pattern, replacement)) == Shape(root.fields[name])
      {
        ReplacedKeepsShape(root.fields[name], pattern, replacement);
      }
      assert Shape(Replaced(root, pattern, replacement)).fields == Shape(root).fields;
    }
  }

  /** One step into a tree, and what is at the end of several. */
  datatype Into = Key(name: string) | Item(index: nat)

  function Node(root: Json, path: seq<Into>): Option<Json> {
    if path == [] then Some(root)
    else match path[0]
      case Key(name) =>
        if root.Dict? && name in root.fields then Node(root.fields[name], path[1..]) else None
      case Item(index) =>
        if root.List? && index < |root.items| then Node(root.items[index], path[1..]) else None
  }

  /** The node is the other one, or its text where that has one; lists are as long and dictionaries
      have the same keys. */
  predicate SameBut(before: Option<Json>, after: Option<Json>, text: string) {
    match before
    case None => after == None
    case Some(Str(_)) => after == Some(Str(text))
    case Some(Scalar(_)) => after == before
    case Some(List(items)) => after.Some? && after.value.List? && |after.value.items| == |items|
    case Some(Dict(fields)) => after.Some? && after.value.Dict? && after.value.fields.Keys == fields.Keys
  }

  function TextOf(node: Option<Json>): string {
    if node.Some? && node.value.Str? then node.value.text else ""
  }

  /** However deep, in lists and dictionaries, every text is replaced, and nothing else. */
  lemma {:induction false} ReplacedAt(root: Json, pattern: string, replacement: string, path: seq<Into>)
    requires pattern != ""
    ensures SameBut(Node(root, path), Node(Replaced(root, pattern, replacement), path),
                    Replace(TextOf(Node(root, path)), pattern, replacement))
    decreases |path|
  {
    hide Replace;
    if path != [] {
      if path[0].Key? && root.Dict? && path[0].name in root.fields {
        ReplacedAt(root.fields[path[0].name], pattern, replacement, path[1..]);
      } else if path[0].Item? && root.List? && path[0].index < |root.items| {
        ReplacedAt(root.items[path[0].index], pattern, replacement, path[1..]);
      }
    }
  }

  /** And so where all placeholders are replaced at once. */
  lemma {:induction false} SubstitutedAt(root: Json, values: map<string, string>, path: seq<Into>)
    ensures SameBut(Node(root, path), Node(Substituted(root, values), path),
                    Simultaneous(TextOf(Node(root, path)), values))
    decreases |path|
  {
    hide Simultaneous;
    if path != [] {
      if path[0].Key? && root.Dict? && path[0].name in root.fields {
        SubstitutedAt(root.fields[path[0].name], values, path[1..]);
      } else if path[0].Item? && root.List? && path[0].index < |root.items| {
        SubstitutedAt(root.items[path[0].index], values, path[1..]);
      }
    }
  }

  lemma {:induction false} NoValues(root: Json)
    ensures Substituted(root, map[]) == root
    decreases root
  {
    if root.Str? {
      Order.NothingSubstituted(root.text);
    } else if root.List? {
      forall i | 0 <= i < |root.items| ensures Substituted(root.items[i], map[]) == root.items[i] {
        NoValues(root.items[i]);
      }
      assert Substituted(root, map[]).items == root.items;
    } else if root.Dict? {
      forall name | name in root.fields ensures Substituted(root.fields[name], map[]) == root.fields[name] {
        NoValues(root.fields[name]);
      }
      assert Substituted(root, map[]).fields == root.fields;
    }
  }

  /** One more replacement in the whole tree. */
  lemma {:induction false} OneMoreInTree(root: Json, values: map<string, string>, name: string, value: string)
    requires Flat(root) && BraceFreeMap(values) && name !in values && BraceFree(name)
    ensures Replaced(Substituted(root, values), Hole(name), value) == Substituted(root, values[name := value])
    decreases root
  {
    var pattern, more := Hole(name), values[name := value];
    if root.Str? {
      OneMore(root.text, values, name, value);
      ReplaceIsSimultaneous(Simultaneous(root.text, values), name, value);
    } else if root.List? {
      forall i | 0 <= i < |root.items|
        ensures Replaced(Substituted(root.items[i], values), pattern, value) == Substituted(root.items[i], more)
      {
        OneMoreInTree(root.items[i], values, name, value);
      }
      assert Replaced(Substituted(root, values), pattern, value).items == Substituted(root, more).items;
    } else if root.Dict? {
      forall key | key in root.fields
        ensures Replaced(Substituted(root.fields[key], values), pattern, value) == Substituted(root.fields[key], more)
      {
        OneMoreInTree(root.fields[key], values, name, value);
      }
      assert Replaced(Substituted(root, values), pattern, value).fields == Substituted(root, more).fields;
    }
  }

  // One `deepReplace` for each entry of the string map

  /** The first n entries replaced one after another. */
  function InOrder(root: Json, entries: seq<Order.Entry>, n: nat): Json
    requires n <= |entries|
  {
    if n == 0 then root
    else Replaced(InOrder(root, entries, n - 1), Hole(entries[n - 1].name), entries[n - 1].value)
  }

  lemma {:induction false} InOrderIsSubstituted(root: Json, entries: seq<Order.Entry>, n: nat)
    requires n <= |entries| && Order.Distinct(entries, n)
    requires Flat(root) && BraceFreeMap(Order.MapOf(entries, n))
    ensures InOrder(root, entries, n) == Substituted(root, Order.MapOf(entries, n))
  {
    if n == 0 {
      NoValues(root);
    } else {
      hide Flat, BraceFreeMap, BraceFree;
      Order.BraceFreeStart(entries, n);
      InOrderIsSubstituted(root, entries, n - 1);
      OneMoreInTree(root, Order.MapOf(entries, n - 1), entries[n - 1].name, entries[n - 1].value);
    }
  }

  /** All orders of all maps without braces give the same tree. */
  ghost predicate OrderFree(root: Json) {
    forall values, entries, other |
        BraceFreeMap(values) && Order.Enumerates(entries, values) && Order.Enumerates(other, values) ::
      InOrder(root, entries, |entries|) == InOrder(root, other, |other|)
  }

  /** Replacing the entries of a map without braces one by one, in any order, replaces them all at
      once throughout the tree, where no text has a nest. */
  lemma OrderIsFree(root: Json, values: map<string, string>, entries: seq<Order.Entry>)
    requires Flat(root) && BraceFreeMap(values) && Order.Enumerates(entries, values)
    ensures InOrder(root, entries, |entries|) == Substituted(root, values)
  {
    InOrderIsSubstituted(root, entries, |entries|);
  }

  /** Replacing goes on in every part of a tree by itself. */
  lemma {:induction false} InOrderOfParts(root: Json, entries: seq<Order.Entry>, n: nat)
    requires n <= |entries|
    ensures root.Str? ==> InOrder(root, entries, n) == Str(Order.InOrder(root.text, entries, n))
    ensures root.List? ==> var r := InOrder(root, entries, n);
      r.List? && |r.items| == |root.items| &&
      forall i | 0 <= i < |root.items| :: r.items[i] == InOrder(root.items[i], entries, n)
    ensures root.Dict? ==> var r := InOrder(root, entries, n);
      r.Dict? && r.fields.Keys == root.fields.Keys &&
      forall name | name in root.fields :: r.fields[name] == InOrder(root.fields[name], entries, n)
  {
    if n > 0 {
      InOrderOfParts(root, entries, n - 1);
    }
  }

  lemma {:induction false} OrderMatters(root: Json)
    returns (values: map<string, string>, entries: seq<Order.Entry>, other: seq<Order.Entry>)
    requires !Flat(root)
    ensures BraceFreeMap(values) && Order.Enumerates(entries, values) && Order.Enumerates(other, values)
    ensures InOrder(root, entries, |entries|) != InOrder(root, other, |other|)
    decreases root
  {
    hide BraceFreeMap, Order.Enumerates, InOrder;
    match root {
      case Str(text) =>
        values, entries, other := Order.OrderMatters(text);
      case List(items) =>
        var i :| 0 <= i < |items| && !Flat(items[i]);
        values, entries, other := OrderMatters(items[i]);
      case Dict(fields) =>
        var name :| name in fields && !Flat(fields[name]);
        values, entries, other := OrderMatters(fields[name]);
    }
    InOrderOfParts(root, entries, |entries|);
    InOrderOfParts(root, other, |other|);
  }

  /** The order of the entries does not matter for a tree, whatever the map, exactly when none of
      its texts has a nest. */
  lemma OrderFreeIff(root: Json)
    ensures OrderFree(root) <==> Flat(root)
  {
    hide Flat, InOrder, BraceFreeMap, Order.Enumerates;
    if Flat(root) {
      forall values, entries, other |
          BraceFreeMap(values) && Order.Enumerates(entries, values) && Order.Enumerates(other, values)
        ensures InOrder(root, entries, |entries|) == InOrder(root, other, |other|)
      {
        OrderIsFree(root, values, entries);
        OrderIsFree(root, values, other);
      }
    } else {
      var values, entries, other := OrderMatters(root);
    }
  }

  function WithSlash(directory: string): (r: string)
    ensures r != "" && r[|r| - 1] == '/' && r in {directory, directory + "/"}
  {
    if directory != "" && directory[|directory| - 1] == '/' then directory else directory + "/"
  }

  /** The places of a run, the last only if there is a program path. */
  function Places(outputDir: string, hostDir: string, root: string, hash: string, programPath: string)
      : map<string, string>
  {
    map["TGTDIR" := WithSlash(outputDir), "HOSTDIR" := hostDir, "FAIPEPROOT" := root, "DEVICEHASH" := hash] +
    if programPath == "" then map[] else map["BUILDDIR" := programPath]
  }

  /** The string map of `_replaceStringMap`: the command line's entries are merged with the info's
      and then overwritten by the places. */
  function StringMap(args: map<string, string>, info: map<string, string>, places: map<string, string>)
      : map<string, string>
  {
    info + args + places
  }

  function Texts(values: map<string, string>): Json {
    Dict(map name | name in values :: Str(values[name]))
  }

  lemma MergeTexts(args: map<string, string>, info: map<string, string>)
    ensures Merge(Texts(args), Texts(info)) == Ok(Texts(info + args))
  {
    var tgt, src, both := Texts(args), Texts(info), Texts(info + args);
    forall name | name in tgt.fields || name in src.fields
      ensures name in both.fields && MergeField(tgt, src, name) == Ok(both.fields[name])
    {
    }
    MergedFields(tgt, src);
    assert Merge(tgt, src).value.fields == both.fields;
  }

  /** Merging the info's entries into the command line's keeps the command line's where both
      have one, and the places of this run win over both. */
  lemma StringMapPrecedence(args: map<string, string>, info: map<string, string>, places: map<string, string>,
                            name: string)
    ensures Merge(Texts(args), Texts(info)) == Ok(Texts(info + args))
    ensures var values := StringMap(args, info, places);
      (name in values <==> name in places || name in args || name in info) &&
      (name in places ==> values[name] == places[name]) &&
      (name in args && name !in places ==> values[name] == args[name]) &&
      (name in info && name !in args && name !in places ==> values[name] == info[name])
  {
    MergeTexts(args, info);
  }

  /** Whatever the command line and the info say, the output directory ends with a slash, the other
      places are those of this run, and a build directory is there if there is a program path. */
  lemma EndsWithSlash(directory: string)
    ensures WithSlash(directory) == if exists start :: directory == start + "/" then directory else directory + "/"
  {
    if directory != "" && directory[|directory| - 1] == '/' {
      assert directory == directory[..|directory| - 1] + "/";
    }
  }

    lemma PlacesWin(args: map<string, string>, info: map<string, string>, outputDir: string, hostDir: string,
                  root: string, hash: string, programPath: string)
    ensures var values := StringMap(args, info, Places(outputDir, hostDir, root, hash, programPath));
      "TGTDIR" in values &&
      values["TGTDIR"] == (if exists start :: outputDir == start + "/" then outputDir else outputDir + "/") &&
      "HOSTDIR" in values && values["HOSTDIR"] == hostDir &&
      "FAIPEPROOT" in values && values["FAIPEPROOT"] == root &&
      "DEVICEHASH" in values && values["DEVICEHASH"] == hash &&
      ("BUILDDIR" in values <==> programPath != "" || "BUILDDIR" in args || "BUILDDIR" in info) &&
      (programPath != "" ==> values["BUILDDIR"] == programPath) &&
      (programPath == "" && "BUILDDIR" in args ==> values["BUILDDIR"] == args["BUILDDIR"]) &&
      (programPath == "" && "BUILDDIR" in info && "BUILDDIR" !in args ==> values["BUILDDIR"] == info["BUILDDIR"])
  {
    EndsWithSlash(outputDir);
    var places := Places(outputDir, hostDir, root, hash, programPath);
    var always := {"TGTDIR", "HOSTDIR", "FAIPEPROOT", "DEVICEHASH"};
    assert places.Keys == always + if programPath == "" then {} else {"BUILDDIR"};
    assert places["TGTDIR"] == WithSlash(outputDir) && places["HOSTDIR"] == hostDir;
    assert places["FAIPEPROOT"] == root && places["DEVICEHASH"] == hash;
    hide Places, WithSlash;
  }

  lemma NothingReplaced(root: Json, values: map<string, string>)
    ensures InOrder(root, [], 0) == root && Order.Enumerates([], values - values.Keys)
  {
    assert values - values.Keys == map[];
  }

  lemma OneMoreEntry(root: Json, entries: seq<Order.Entry>, values: map<string, string>, entry: Order.Entry)
    requires Order.Enumerates(entries, values) && entry.name !in values
    ensures Order.Enumerates(entries + [entry], values[entry.name := entry.value])
    ensures InOrder(root, entries + [entry], |entries| + 1) ==
            Replaced(InOrder(root, entries, |entries|), Hole(entry.name), entry.value)
  {
    hide Replaced, Hole;
    SameStart(root, entries, entries + [entry], |entries|);
    Order.SameStart("", entries, entries + [entry], |entries|);
  }

  /** The loop over the string map, whatever order its keys come in. */
  method ReplaceStringMap(root: Json, values: map<string, string>) returns (r: Json, ghost entries: seq<Order.Entry>)
    ensures Order.Enumerates(entries, values) && r == InOrder(root, entries, |entries|)
    ensures Flat(root) && BraceFreeMap(values) ==> r == Substituted(root, values)
    ensures Shape(r) == Shape(root)
  {
    hide InOrder, Flat, BraceFreeMap, Substituted, Shape, Replaced;
    r, entries := root, [];
    NothingReplaced(root, values);
    var names := values.Keys;
    while names != {}
      invariant names <= values.Keys && Order.Enumerates(entries, values - names)
      invariant r == InOrder(root, entries, |entries|) && Shape(r) == Shape(root)
    {
      var name :| name in names;
      OneMoreEntry(root, entries, values - names, Order.Entry(name, values[name]));
      ReplacedKeepsShape(r, Hole(name), values[name]);
      r := DeepReplace(r, Hole(name), values[name]);
      entries := entries + [Order.Entry(name, values[name])];
      assert values - (names - {name}) == (values - names)[name := values[name]];
      names := names - {name};
    }
    assert values - {} == values;
    if Flat(root) && BraceFreeMap(values) {
      OrderIsFree(root, values, entries);
    }
  }

  /** More entries change nothing for the first n. */
  lemma {:induction false} SameStart(root: Json, entries: seq<Order.Entry>, longer: seq<Order.Entry>, n: nat)
    requires n <= |entries| && entries <= longer
    ensures InOrder(root, entries, n) == InOrder(root, longer, n)
  {
    if n > 0 {
      SameStart(root, entries, longer, n - 1);
    }
  }
}
