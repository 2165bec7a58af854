/**
 * What `parseComponent` makes of one document, as pure functions: the
 * case-insensitive type resolution, the required `name` and `type`, and the
 * four failure-isolated blocks (comments, styles, variables, actions).
 */
module Transform {
  import opened Wrappers
  import opened JsonTree
  import opened Beans

  /** `Character.toUpperCase` on the ASCII letters. */
  function UpperChar(c: char): char {
    if 'a' <= c <= 'z' then (c as int - 32) as char else c
  }

  /** `String.toUpperCase()`. */
  function Upper(s: string): string {
    seq(|s|, i requires 0 <= i < |s| => UpperChar(s[i]))
  }

  /** Two strings that are equal once both are upper-cased. */
  predicate SameUpToCase(a: string, b: string) {
    |a| == |b| && forall i :: 0 <= i < |a| ==> UpperChar(a[i]) == UpperChar(b[i])
  }

  /** `ComponentType.valueOf`: the constant with exactly this identifier, if any. */
  function ValueOf(constant: string): Option<ComponentType> {
    if constant == "COMPONENT" then Some(ComponentKind)
    else if constant == "ID" then Some(IdKind)
    else if constant == "CLASS" then Some(ClassKind)
    else None
  }

  /** The type `parseComponent` gives a component whose `type` field reads `typ`. */
  function Resolve(typ: string): (kind: ComponentType)
    ensures Upper(typ) == kind.Constant()
            || (kind == ComponentKind && forall k: ComponentType :: Upper(typ) != k.Constant())
  {
    ValueOf(Upper(typ)).GetOr(ComponentKind)
  }

  /** Resolution ignores case: any spelling of a type's name resolves to that type. */
  lemma ResolveIgnoresCase(s: string, kind: ComponentType)
    requires SameUpToCase(s, kind.Name())
    ensures Resolve(s) == kind
  {
    assert Upper(s) == Upper(kind.Name());
    match kind
    case ComponentKind => assert Upper("component") == "COMPONENT";
    case IdKind => assert Upper("id") == "ID";
    case ClassKind => assert Upper("class") == "CLASS";
  }

  /** `getString("name")` and then `getString("type")`: both must be strings. */
  function Header(doc: Obj): Result<(string, string)> {
    match GetString(doc, "name")
    case Err(e) => Err(e)
    case Ok(name) =>
      match GetString(doc, "type")
      case Err(e) => Err(e)
      case Ok(typ) => Ok((name, typ))
  }

  /** Every array element coerced with `+ ""`, in array order. */
  function Texts(items: seq<Json>): seq<string> {
    seq(|items|, i requires 0 <= i < |items| => Text(items[i]))
  }

  /** One Style per member of `o`, its value coerced with `+ ""`. */
  function StylesOf(o: Obj): seq<Style> {
    seq(|o.entries|, i requires 0 <= i < |o.entries| => Style(o.entries[i].0, Text(o.entries[i].1)))
  }

  /** One Variable per member of `o`, its value coerced with `+ ""`. */
  function VariablesOf(o: Obj): seq<Variable> {
    seq(|o.entries|, i requires 0 <= i < |o.entries| => Variable(o.entries[i].0, Text(o.entries[i].1)))
  }

  /** The comments block: absent when `comments` is missing or not an array. */
  function CommentBlock(doc: Obj): Option<seq<string>> {
    match GetArray(doc, "comments")
    case Ok(items) => Some(Texts(items))
    case Err(_) => None
  }

  /** The styles block: absent when `styles` is missing or not an object. */
  function StyleBlock(doc: Obj): Option<seq<Style>> {
    match GetObject(doc, "styles")
    case Ok(o) => Some(StylesOf(o))
    case Err(_) => None
  }

  /** The variables block: absent when `variables` is missing or not an object. */
  function VariableBlock(doc: Obj): Option<seq<Variable>> {
    match GetObject(doc, "variables")
    case Ok(o) => Some(VariablesOf(o))
    case Err(_) => None
  }

  /**
   * The members that `forEach` with `getString` adds before it throws: those
   * before the first member whose value is not a string.
   */
  function StringPrefix(entries: seq<(string, Json)>): seq<(string, string)> {
    if |entries| == 0 || !entries[0].1.JString? then []
    else [(entries[0].0, entries[0].1.s)] + StringPrefix(entries[1..])
  }

  /** StringPrefix keeps exactly the members up to the first non-string value. */
  lemma {:induction false} StringPrefixSpec(entries: seq<(string, Json)>)
    ensures |StringPrefix(entries)| <= |entries|
    ensures forall i :: 0 <= i < |StringPrefix(entries)| ==>
              entries[i].1 == JString(StringPrefix(entries)[i].1) &&
              StringPrefix(entries)[i].0 == entries[i].0
    ensures |StringPrefix(entries)| < |entries| ==> !entries[|StringPrefix(entries)|].1.JString?
  {
    if |entries| > 0 && entries[0].1.JString? {
      StringPrefixSpec(entries[1..]);
    }
  }

  function AsVariables(pairs: seq<(string, string)>): seq<Variable> {
    seq(|pairs|, i requires 0 <= i < |pairs| => Variable(pairs[i].0, pairs[i].1))
  }

  function AsStyles(pairs: seq<(string, string)>): seq<Style> {
    seq(|pairs|, i requires 0 <= i < |pairs| => Style(pairs[i].0, pairs[i].1))
  }

  /**
   * `actions.getJSONObject(actionName).getJSONObject(field)` read with
   * `getString`: empty when either lookup throws, a prefix when a value is
   * not a string.
   */
  function NestedEntries(actions: Obj, actionName: string, field: string): seq<(string, string)> {
    match GetObject(actions, actionName)
    case Err(_) => []
    case Ok(a) =>
      match GetObject(a, field)
      case Err(_) => []
      case Ok(o) => StringPrefix(o.entries)
  }

  /** The Action built for the `i`-th key of the actions object. */
  function ActionOf(actions: Obj, i: nat, kind: ComponentType, name: string): ActionValue
    requires i < |actions.entries|
  {
    var key := actions.entries[i].0;
    ActionValue(key, kind.Suffix() + name,
                AsVariables(NestedEntries(actions, key, "variables")),
                AsStyles(NestedEntries(actions, key, "styles")))
  }

  /** The actions block: absent when `actions` is missing or not an object. */
  function ActionBlock(doc: Obj, kind: ComponentType, name: string): Option<seq<ActionValue>> {
    match GetObject(doc, "actions")
    case Err(_) => None
    case Ok(acts) =>
      Some(seq(|acts.entries|, i requires 0 <= i < |acts.entries| => ActionOf(acts, i, kind, name)))
  }

  /** The Actions built for the first `n` keys of an actions object, in key order. */
  function ActionsUpTo(acts: Obj, kind: ComponentType, name: string, n: nat): (r: seq<ActionValue>)
    requires n <= |acts.entries|
    ensures |r| == n
  {
    if n == 0 then [] else ActionsUpTo(acts, kind, name, n - 1) + [ActionOf(acts, n - 1, kind, name)]
  }

  /** The `k`-th action built is the one for the `k`-th key. */
  lemma {:induction false} ActionsUpToAt(acts: Obj, kind: ComponentType, name: string, n: nat)
    requires n <= |acts.entries|
    ensures forall k :: 0 <= k < n ==> ActionsUpTo(acts, kind, name, n)[k] == ActionOf(acts, k, kind, name)
  {
    if n > 0 {
      ActionsUpToAt(acts, kind, name, n - 1);
    }
  }

  /**
   * The component `parseComponent` appends for `doc` when it draws `id`, or
   * None when it appends nothing.
   */
  function ComponentOf(doc: Obj, id: string): (r: Option<ComponentValue>)
    ensures r.None? <==> GetString(doc, "name").Err? || GetString(doc, "type").Err?
    ensures r.Some? ==> r.value.name == GetString(doc, "name").value && r.value.id == id
                        && r.value.kind == Resolve(GetString(doc, "type").value)
  {
    match Header(doc)
    case Err(_) => None
    case Ok((name, typ)) =>
      var kind := Resolve(typ);
      Some(ComponentValue(name, kind, id,
                          CommentBlock(doc).GetOr([]),
                          StyleBlock(doc).GetOr([]),
                          VariableBlock(doc).GetOr([]),
                          ActionBlock(doc, kind, name).GetOr([])))
  }

  /*
   * A block of the wrong shape empties that block only: the component is
   * still appended, with its name, type, id and the three other blocks as
   * they were. Replacing the block's member by `v` with `put` covers every
   * wrong shape.
   */

  /** A `comments` member that is not an array leaves the component without comments and changes nothing else. */
  lemma CommentsFailureIsolated(doc: Obj, id: string, v: Json)
    requires ComponentOf(doc, id).Some?
    requires !v.JArray?
    ensures ComponentOf(Put(doc, "comments", v), id) == Some(ComponentOf(doc, id).value.(comments := []))
  {
    var doc' := Put(doc, "comments", v);
    assert Get(doc', "name") == Get(doc, "name") && Get(doc', "type") == Get(doc, "type");
    assert Header(doc') == Header(doc);
    var name, kind := Header(doc).value.0, Resolve(Header(doc).value.1);
    assert Get(doc', "styles") == Get(doc, "styles");
    assert StyleBlock(doc') == StyleBlock(doc);
    assert Get(doc', "variables") == Get(doc, "variables");
    assert VariableBlock(doc') == VariableBlock(doc);
    assert Get(doc', "actions") == Get(doc, "actions");
    assert ActionBlock(doc', kind, name) == ActionBlock(doc, kind, name);
  }

  /** A `styles` member that is not an object leaves the component without styles and changes nothing else. */
  lemma StylesFailureIsolated(doc: Obj, id: string, v: Json)
    requires ComponentOf(doc, id).Some?
    requires !v.JObject?
    ensures ComponentOf(Put(doc, "styles", v), id) == Some(ComponentOf(doc, id).value.(styles := []))
  {
    var doc' := Put(doc, "styles", v);
    assert Get(doc', "name") == Get(doc, "name") && Get(doc', "type") == Get(doc, "type");
    assert Header(doc') == Header(doc);
    var name, kind := Header(doc).value.0, Resolve(Header(doc).value.1);
    assert Get(doc', "comments") == Get(doc, "comments");
    assert CommentBlock(doc') == CommentBlock(doc);
    assert Get(doc', "variables") == Get(doc, "variables");
    assert VariableBlock(doc') == VariableBlock(doc);
    assert Get(doc', "actions") == Get(doc, "actions");
    assert ActionBlock(doc', kind, name) == ActionBlock(doc, kind, name);
  }

  /** A `variables` member that is not an object leaves the component without variables and changes nothing else. */
  lemma VariablesFailureIsolated(doc: Obj, id: string, v: Json)
    requires ComponentOf(doc, id).Some?
    requires !v.JObject?
    ensures ComponentOf(Put(doc, "variables", v), id) == Some(ComponentOf(doc, id).value.(variables := []))
  {
    var doc' := Put(doc, "variables", v);
    assert Get(doc', "name") == Get(doc, "name") && Get(doc', "type") == Get(doc, "type");
    assert Header(doc') == Header(doc);
    var name, kind := Header(doc).value.0, Resolve(Header(doc).value.1);
    assert Get(doc', "comments") == Get(doc, "comments");
    assert CommentBlock(doc') == CommentBlock(doc);
    assert Get(doc', "styles") == Get(doc, "styles");
    assert StyleBlock(doc') == StyleBlock(doc);
    assert Get(doc', "actions") == Get(doc, "actions");
    assert ActionBlock(doc', kind, name) == ActionBlock(doc, kind, name);
  }

  /** An `actions` member that is not an object leaves the component without actions and changes nothing else. */
  lemma ActionsFailureIsolated(doc: Obj, id: string, v: Json)
    requires ComponentOf(doc, id).Some?
    requires !v.JObject?
    ensures ComponentOf(Put(doc, "actions", v), id) == Some(ComponentOf(doc, id).value.(actions := []))
  {
    var doc' := Put(doc, "actions", v);
    assert Get(doc', "name") == Get(doc, "name") && Get(doc', "type") == Get(doc, "type");
    assert Header(doc') == Header(doc);
    var name, kind := Header(doc).value.0, Resolve(Header(doc).value.1);
    assert Get(doc', "comments") == Get(doc, "comments");
    assert CommentBlock(doc') == CommentBlock(doc);
    assert Get(doc', "styles") == Get(doc, "styles");
    assert StyleBlock(doc') == StyleBlock(doc);
    assert Get(doc', "variables") == Get(doc, "variables");
    assert VariableBlock(doc') == VariableBlock(doc);
  }

  /** A block whose member is missing leaves that part of the component empty. */
  lemma MissingBlocksAreEmpty(doc: Obj, id: string)
    requires ComponentOf(doc, id).Some?
    ensures Get(doc, "comments").Err? ==> ComponentOf(doc, id).value.comments == []
    ensures Get(doc, "styles").Err? ==> ComponentOf(doc, id).value.styles == []
    ensures Get(doc, "variables").Err? ==> ComponentOf(doc, id).value.variables == []
    ensures Get(doc, "actions").Err? ==> ComponentOf(doc, id).value.actions == []
  {
  }

  /**
   * Each key of `actions` gives one Action, in key order, named after the key
   * and carrying the component's suffixed name; it is kept even when its own
   * `variables` or `styles` cannot be read.
   */
  lemma ActionsFollowKeys(doc: Obj, kind: ComponentType, name: string)
    requires GetObject(doc, "actions").Ok?
    ensures var acts := GetObject(doc, "actions").value;
            var a := ActionBlock(doc, kind, name).value;
            |a| == |acts.entries| &&
            forall i :: 0 <= i < |a| ==>
              a[i].name == acts.entries[i].0 && a[i].parentName == kind.Suffix() + name &&
              (GetObject(acts, acts.entries[i].0).Err? ==> a[i].variables == [] && a[i].styles == [])
  {
  }

  /**
   * Nested action variables are the leading string-valued members of the
   * nested object, keys and values unchanged, up to the first member whose
   * value is not a string.
   */
  lemma {:induction false} NestedEntriesArePrefix(actions: Obj, actionName: string, field: string)
    requires GetObject(actions, actionName).Ok?
    requires GetObject(GetObject(actions, actionName).value, field).Ok?
    ensures var o := GetObject(GetObject(actions, actionName).value, field).value;
            var p := NestedEntries(actions, actionName, field);
            |p| <= |o.entries| &&
            (forall i :: 0 <= i < |p| ==> o.entries[i] == (p[i].0, JString(p[i].1))) &&
            (|p| < |o.entries| ==> !o.entries[|p|].1.JString?)
  {
    var o := GetObject(GetObject(actions, actionName).value, field).value;
    StringPrefixSpec(o.entries);
  }

  /** Styles and variables read from an object with distinct keys have distinct keys: they form a mapping. */
  lemma {:induction false} BlocksAreMappings(doc: Obj)
    requires GetObject(doc, "styles").Ok? ==> DistinctKeys(GetObject(doc, "styles").value)
    requires GetObject(doc, "variables").Ok? ==> DistinctKeys(GetObject(doc, "variables").value)
    ensures var s := StyleBlock(doc).GetOr([]);
            forall i, j :: 0 <= i < j < |s| ==> s[i].key != s[j].key
    ensures var v := VariableBlock(doc).GetOr([]);
            forall i, j :: 0 <= i < j < |v| ==> v[i].key != v[j].key
  {
  }

  /** The document {"name":"Button","type":"component","styles":{"color":"red"},"variables":{"x":"1"},"actions":{"onClick":{"variables":{"y":"2"}}}}. */
  function ButtonDoc(): Obj {
    Obj([("name", JString("Button")),
         ("type", JString("component")),
         ("styles", JObject(Obj([("color", JString("red"))]))),
         ("variables", JObject(Obj([("x", JString("1"))]))),
         ("actions", JObject(Obj([("onClick", JObject(Obj([("variables", JObject(Obj([("y", JString("2"))])))])))])))])
  }

  /** The button document yields one COMPONENT named Button with its style, variable and one onClick action. */
  lemma ButtonScenario(id: string)
    ensures ComponentOf(ButtonDoc(), id) ==
            Some(ComponentValue("Button", ComponentKind, id, [], [Style("color", "red")], [Variable("x", "1")],
                                [ActionValue("onClick", ComponentKind.Suffix() + "Button", [Variable("y", "2")], [])]))
  {
    var d := ButtonDoc();
    ButtonMembers();
    assert Header(d) == Ok(("Button", "component"));
    assert Resolve("component") == ComponentKind by {
      ResolveIgnoresCase("component", ComponentKind);
    }
    ButtonBlocks();
    ButtonActions();
  }

  lemma ButtonMembers()
    ensures Get(ButtonDoc(), "name") == Ok(JString("Button"))
    ensures Get(ButtonDoc(), "type") == Ok(JString("component"))
    ensures Get(ButtonDoc(), "comments").Err?
    ensures Get(ButtonDoc(), "styles") == Ok(JObject(Obj([("color", JString("red"))])))
    ensures Get(ButtonDoc(), "variables") == Ok(JObject(Obj([("x", JString("1"))])))
    ensures Get(ButtonDoc(), "actions") ==
            Ok(JObject(Obj([("onClick", JObject(Obj([("variables", JObject(Obj([("y", JString("2"))])))])))])))
  {
    var d := ButtonDoc();
    GetFirst(d, 1);
    GetFirst(d, 2);
    GetFirst(d, 3);
    GetFirst(d, 4);
  }

  lemma ButtonBlocks()
    requires GetArray(ButtonDoc(), "comments").Err?
    requires GetObject(ButtonDoc(), "styles") == Ok(Obj([("color", JString("red"))]))
    requires GetObject(ButtonDoc(), "variables") == Ok(Obj([("x", JString("1"))]))
    ensures CommentBlock(ButtonDoc()) == None
    ensures StyleBlock(ButtonDoc()) == Some([Style("color", "red")])
    ensures VariableBlock(ButtonDoc()) == Some([Variable("x", "1")])
  {
    var styles := Obj([("color", JString("red"))]);
    assert StylesOf(styles) == [Style("color", "red")];
    var variables := Obj([("x", JString("1"))]);
    assert VariablesOf(variables) == [Variable("x", "1")];
  }

  lemma ButtonActions()
    requires GetObject(ButtonDoc(), "actions") ==
             Ok(Obj([("onClick", JObject(Obj([("variables", JObject(Obj([("y", JString("2"))])))])))]))
    ensures ActionBlock(ButtonDoc(), ComponentKind, "Button") ==
            Some([ActionValue("onClick", ComponentKind.Suffix() + "Button", [Variable("y", "2")], [])])
  {
    var acts := Obj([("onClick", JObject(Obj([("variables", JObject(Obj([("y", JString("2"))])))])))]);
    var inner := Obj([("variables", JObject(Obj([("y", JString("2"))])))]);
    GetFirst(acts, 0);
    GetFirst(inner, 0);
    var yEntries := [("y", JString("2"))];
    assert StringPrefix(yEntries) == [("y", "2")] by {
      assert StringPrefix(yEntries[1..]) == [];
    }
    assert NestedEntries(acts, "onClick", "variables") == [("y", "2")];
    assert NestedEntries(acts, "onClick", "styles") == [];
    assert AsVariables([("y", "2")]) == [Variable("y", "2")];
    assert ActionOf(acts, 0, ComponentKind, "Button") ==
           ActionValue("onClick", ComponentKind.Suffix() + "Button", [Variable("y", "2")], []);
    var block := ActionBlock(ButtonDoc(), ComponentKind, "Button").value;
    assert |block| == 1 && block[0] == ActionOf(acts, 0, ComponentKind, "Button");
    assert block == [ActionValue("onClick", ComponentKind.Suffix() + "Button", [Variable("y", "2")], [])];
  }
}
