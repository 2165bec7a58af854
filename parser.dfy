/**
 * The parsing session: a Parser object holding the components built so far
 * and the set of ids already issued, with `parse` (one loaded document) and
 * `parseComponent` (one component document), which update that state and
 * fill each new Component and Action in place.
 */
module Parsing {
  import opened Wrappers
  import opened JsonTree
  import opened Beans
  import opened Transform
  import Access

  datatype Level = Error | Warning | Info

  /** One message sent to the logger. */
  datatype Diagnostic = Diagnostic(level: Level, tag: string, message: string)

  const SyntaxErrorReport := Diagnostic(Error, "Parser", "Syntax error.")
  const NoTypeReport := Diagnostic(Warning, "Parser", "No type specified, parsing as component.")
  const DoneReport := Diagnostic(Info, "Parser", "DONE.")
  const NoNameReport := Diagnostic(Error, "Parser", "Component has no name, ignoring.")

  /** The `type` literals that `parse` hands on to `parseComponent` (compared case-sensitively). */
  predicate IsComponentLiteral(t: string) {
    t == "component" || t == "id" || t == "class"
  }

  /** Where `parse` sends a loaded document. */
  datatype Route =
    | NoDocument                           // the loader gave null: a syntax error
    | TypeNotString                        // `type` holds a non-string: the cast throws out of parse and out of the directory walk
    | Other(literal: string)               // a `type` literal that is not a component one: nothing happens
    | ToComponent(doc: Obj, defaulted: bool) // parsed as a component; `doc` after any defaulting

  /**
   * The decision `parse` takes. A missing `type` is written back as the
   * COMPONENT name and dispatch uses the initial literal "component".
   */
  function RouteOf(loaded: Option<Obj>): Route {
    match loaded
    case None => NoDocument
    case Some(doc) =>
      match Get(doc, "type")
      case Err(_) => ToComponent(Put(doc, "type", JString(ComponentKind.Name())), true)
      case Ok(JString(t)) => if IsComponentLiteral(t) then ToComponent(doc, false) else Other(t)
      case Ok(_) => TypeNotString
  }

  /** What `parse` reports to the caller. */
  datatype Outcome =
    | SyntaxError
    | TypeCastFailure          // the ClassCastException that leaves `parse`
    | Skipped
    | Parsed(added: Option<string>)  // parseComponent ran; the id of the component it appended, if any

  /** The diagnostics `parse` logs on each route. */
  function Reports(route: Route): seq<Diagnostic> {
    match route
    case NoDocument => [SyntaxErrorReport]
    case TypeNotString => []
    case Other(_) => [DoneReport]
    case ToComponent(doc, defaulted) => (if defaulted then [NoTypeReport] else []) + ComponentReports(doc)
  }

  /** What is logged once a document has been handed to parseComponent: its error, if any, then DONE. */
  function ComponentReports(doc: Obj): seq<Diagnostic> {
    (if Header(doc).Err? then [NoNameReport] else []) + [DoneReport]
  }

  /**
   * A null document and a `type` other than "component", "id" and "class"
   * are never parsed; every other document is, a missing `type` included.
   */
  lemma RouteSpec(loaded: Option<Obj>)
    ensures RouteOf(loaded).ToComponent? <==>
            loaded.Some? && (Get(loaded.value, "type").Err? ||
                             (Get(loaded.value, "type").value.JString? &&
                              IsComponentLiteral(Get(loaded.value, "type").value.s)))
    ensures RouteOf(loaded).ToComponent? && !RouteOf(loaded).defaulted ==> RouteOf(loaded).doc == loaded.value
  {
  }

  /**
   * A document without `type` is updated to hold the COMPONENT name, keeps
   * all its other members, and yields a COMPONENT component when its name is
   * a string.
   */
  lemma {:induction false} MissingTypeDefaults(doc: Obj, id: string)
    requires Get(doc, "type").Err?
    ensures RouteOf(Some(doc)).ToComponent? && RouteOf(Some(doc)).defaulted
    ensures var d := RouteOf(Some(doc)).doc;
            Get(d, "type") == Ok(JString("component")) &&
            (forall k :: k != "type" ==> Get(d, k) == Get(doc, k))
    ensures GetString(doc, "name").Ok? ==>
              var c := ComponentOf(RouteOf(Some(doc)).doc, id);
              c.Some? && c.value.kind == ComponentKind && c.value.name == GetString(doc, "name").value
  {
    var d := Put(doc, "type", JString(ComponentKind.Name()));
    assert Get(d, "name") == Get(doc, "name");
    ResolveIgnoresCase("component", ComponentKind);
  }

  /** The dispatch in `parse` is case-sensitive: "Class" is skipped although it would resolve to CLASS. */
  lemma MixedCaseTypeIsSkipped(name: string)
    ensures RouteOf(Some(Obj([("name", JString(name)), ("type", JString("Class"))]))) == Other("Class")
    ensures Resolve("Class") == ClassKind
  {
    var doc := Obj([("name", JString(name)), ("type", JString("Class"))]);
    assert KeyIndex(doc.entries, "type") == 1;
    ResolveIgnoresCase("Class", ClassKind);
  }

  /**
   * The identifier loop: draw ids one after the other until one is not
   * already issued. `uuids(k)` is the k-th value UUID.randomUUID() would
   * return; some draw is assumed to be fresh.
   */
  method FreshId(issued: set<string>, uuids: nat -> string) returns (id: string)
    requires exists k: nat :: uuids(k) !in issued
    ensures id !in issued
    ensures exists k: nat :: id == uuids(k) && forall j :: 0 <= j < k ==> uuids(j) in issued
  {
    ghost var w: nat :| uuids(w) !in issued;
    var k: nat := 0;
    id := uuids(k);
    while id in issued
      invariant k <= w
      invariant id == uuids(k)
      invariant forall j :: 0 <= j < k ==> uuids(j) in issued
      decreases w - k
    {
      k := k + 1;
      id := uuids(k);
    }
  }

  /** The comments block: each element, coerced with `+ ""`, added in array order. */
  method ParseComments(json: Obj, comp: Component)
    modifies comp`comments
    ensures comp.comments == old(comp.comments) + CommentBlock(json).GetOr([])
  {
    var r := GetArray(json, "comments");
    if r.Ok? {
      var items := r.value;
      for i := 0 to |items|
        invariant comp.comments == old(comp.comments) + Texts(items)[..i]
      {
        comp.AddComment(Text(items[i]));
      }
      assert Texts(items)[..|items|] == Texts(items);
    }
  }

  /** The styles block: one Style per key, its value coerced with `+ ""`. */
  method ParseStyles(json: Obj, comp: Component)
    modifies comp`styles
    ensures comp.styles == old(comp.styles) + StyleBlock(json).GetOr([])
  {
    var r := GetObject(json, "styles");
    if r.Ok? {
      var styles := r.value;
      for i := 0 to |styles.entries|
        invariant comp.styles == old(comp.styles) + StylesOf(styles)[..i]
      {
        comp.AddStyle(Style(styles.entries[i].0, Text(styles.entries[i].1)));
      }
      assert StylesOf(styles)[..|styles.entries|] == StylesOf(styles);
    }
  }

  /** The variables block: one Variable per key, its value coerced with `+ ""`. */
  method ParseVariables(json: Obj, comp: Component)
    modifies comp`variables
    ensures comp.variables == old(comp.variables) + VariableBlock(json).GetOr([])
  {
    var r := GetObject(json, "variables");
    if r.Ok? {
      var variables := r.value;
      for i := 0 to |variables.entries|
        invariant comp.variables == old(comp.variables) + VariablesOf(variables)[..i]
      {
        comp.AddVariable(Variable(variables.entries[i].0, Text(variables.entries[i].1)));
      }
      assert VariablesOf(variables)[..|variables.entries|] == VariablesOf(variables);
    }
  }

  /**
   * An action's own variables, read with `getString`: the first value that is
   * not a string ends the block, keeping the variables added before it.
   */
  method ParseActionVariables(actions: Obj, actionName: string, action: Action)
    modifies action`variables
    ensures action.variables == old(action.variables) + AsVariables(NestedEntries(actions, actionName, "variables"))
  {
    var a := GetObject(actions, actionName);
    if a.Ok? {
      var r := GetObject(a.value, "variables");
      if r.Ok? {
        var o := r.value;
        StringPrefixSpec(o.entries);
        ghost var p := StringPrefix(o.entries);
        var i := 0;
        while i < |o.entries|
          invariant 0 <= i <= |p|
          invariant action.variables == old(action.variables) + AsVariables(p[..i])
        {
          var value := o.entries[i].1;
          if !value.JString? {
            break;
          }
          action.AddVariable(Variable(o.entries[i].0, value.s));
          assert p[..i + 1] == p[..i] + [p[i]];
          i := i + 1;
        }
        assert p[..i] == p;
      }
    }
  }

  /**
   * An action's own styles, read with `getString`: the first value that is
   * not a string ends the block, keeping the styles added before it.
   */
  method ParseActionStyles(actions: Obj, actionName: string, action: Action)
    modifies action`styles
    ensures action.styles == old(action.styles) + AsStyles(NestedEntries(actions, actionName, "styles"))
  {
    var a := GetObject(actions, actionName);
    if a.Ok? {
      var r := GetObject(a.value, "styles");
      if r.Ok? {
        var o := r.value;
        StringPrefixSpec(o.entries);
        ghost var p := StringPrefix(o.entries);
        var i := 0;
        while i < |o.entries|
          invariant 0 <= i <= |p|
          invariant action.styles == old(action.styles) + AsStyles(p[..i])
        {
          var value := o.entries[i].1;
          if !value.JString? {
            break;
          }
          action.AddStyle(Style(o.entries[i].0, value.s));
          assert p[..i + 1] == p[..i] + [p[i]];
          i := i + 1;
        }
        assert p[..i] == p;
      }
    }
  }

  /**
   * One iteration of the actions block: a new Action named after the `i`-th
   * key, its parent name the type's suffix followed by the component's name,
   * with its own variables and styles.
   */
  method NewAction(acts: Obj, i: nat, kind: ComponentType, name: string) returns (action: Action)
    requires i < |acts.entries|
    ensures fresh(action)
    ensures action.Value() == ActionOf(acts, i, kind, name)
  {
    var actionName := acts.entries[i].0;
    action := new Action();
    action.SetName(actionName);
    action.SetParentName(kind.Suffix() + name);
    ParseActionVariables(acts, actionName, action);
    ParseActionStyles(acts, actionName, action);
  }

  /**
   * The `forEach` over the keys of an actions object: one new Action per key,
   * in key order, appended whether or not its own variables and styles could
   * be read.
   */
  method AppendActions(acts: Obj, comp: Component, kind: ComponentType, name: string)
    modifies comp`actions
    ensures |comp.actions| == |old(comp.actions)| + |acts.entries|
    ensures comp.actions[..|old(comp.actions)|] == old(comp.actions)
    ensures forall i :: |old(comp.actions)| <= i < |comp.actions| ==>
              fresh(comp.actions[i]) &&
              comp.actions[i].Value() == ActionsUpTo(acts, kind, name, |acts.entries|)[i - |old(comp.actions)|]
  {
    ghost var base := |comp.actions|;
    ghost var built: seq<ActionValue> := [];
    for i := 0 to |acts.entries|
      invariant |comp.actions| == base + i
      invariant comp.actions[..base] == old(comp.actions)
      invariant built == ActionsUpTo(acts, kind, name, i)
      invariant forall j :: base <= j < base + i ==> fresh(comp.actions[j]) && comp.actions[j].Value() == built[j - base]
    {
      var action := NewAction(acts, i, kind, name);
      comp.AddAction(action);
      built := built + [action.Value()];
    }
  }

  /** The actions block: nothing is added when `actions` is missing or not an object. */
  method ParseActions(json: Obj, comp: Component, kind: ComponentType, name: string)
    modifies comp`actions
    ensures |comp.actions| == |old(comp.actions)| + |ActionBlock(json, kind, name).GetOr([])|
    ensures comp.actions[..|old(comp.actions)|] == old(comp.actions)
    ensures forall i :: |old(comp.actions)| <= i < |comp.actions| ==>
              fresh(comp.actions[i]) &&
              comp.actions[i].Value() == ActionBlock(json, kind, name).GetOr([])[i - |old(comp.actions)|]
  {
    var r := GetObject(json, "actions");
    if r.Ok? {
      AppendActions(r.value, comp, kind, name);
      ActionsUpToAt(r.value, kind, name, |r.value.entries|);
    }
  }

  /**
   * The new Component for `name`, of type `kind`, with id `id`, filled by the
   * four blocks in turn; each block that cannot be read leaves its part empty.
   */
  method BuildComponent(json: Obj, name: string, kind: ComponentType, id: string) returns (comp: Component)
    ensures fresh(comp)
    ensures comp.Value() ==
            ComponentValue(name, kind, id,
                           CommentBlock(json).GetOr([]),
                           StyleBlock(json).GetOr([]),
                           VariableBlock(json).GetOr([]),
                           ActionBlock(json, kind, name).GetOr([]))
  {
    comp := new Component(name, kind, id);
    ParseComments(json, comp);
    ParseStyles(json, comp);
    ParseVariables(json, comp);
    ParseActions(json, comp, kind, name);
    ghost var value := comp.Value();
    assert value.comments == CommentBlock(json).GetOr([]) && value.styles == StyleBlock(json).GetOr([]);
    assert value.variables == VariableBlock(json).GetOr([]);
    assert value.actions == ActionBlock(json, kind, name).GetOr([]);
  }

  class Parser {
    /** The file extensions of the configuration, consulted by the directory walk. */
    const formats: set<string>
    var components: seq<Component>
    var uidSet: set<string>
    /** What has been sent to the logger. */
    ghost var log: seq<Diagnostic>

    /** Ids are unique across the component list and all of them have been issued. */
    ghost predicate Valid()
      reads this`components, this`uidSet
    {
      (forall i, j :: 0 <= i < j < |components| ==> components[i].id != components[j].id) &&
      (forall i :: 0 <= i < |components| ==> components[i].id in uidSet)
    }

    /** The file test of the directory walk: a file is parsed when its extension is a configured format. */
    predicate Selects(fileName: string)
      reads this
    {
      Access.IsCandidate(fileName, formats)
    }

    constructor (formats: set<string>)
      ensures Valid()
      ensures this.formats == formats && components == [] && uidSet == {} && log == []
    {
      this.formats := formats;
      components, uidSet := [], {};
      log := [];
    }

    /**
     * How parseComponent on `doc` takes the component list from `before` and
     * the issued ids from `issued` to their present values when it reports
     * `added`: nothing changes when `name` or `type` is not a string;
     * otherwise one new component is appended and its id, never issued
     * before, is recorded.
     */
    ghost predicate Recorded(before: seq<Component>, issued: set<string>, doc: Obj, added: Option<string>)
      reads this`components, this`uidSet
    {
      (added.None? <==> Header(doc).Err?) &&
      (added.None? ==> components == before && uidSet == issued) &&
      (added.Some? ==>
         added.value !in issued && uidSet == issued + {added.value} &&
         |components| == |before| + 1 && components[..|before|] == before)
    }

    /** The last component of the list is the one `ComponentOf` gives for `doc` and `id`. */
    ghost predicate LastIs(doc: Obj, id: string)
      reads this`components, components, if |components| > 0 then components[|components| - 1].actions else []
    {
      |components| > 0 && Some(components[|components| - 1].Value()) == ComponentOf(doc, id)
    }

    /** `uidSet.add(id)` and `components.add(comp)` for a component whose id has not been issued. */
    method Record(comp: Component)
      requires Valid()
      requires comp.id !in uidSet
      modifies this`components, this`uidSet
      ensures Valid()
      ensures uidSet == old(uidSet) + {comp.id} && components == old(components) + [comp]
    {
      uidSet := uidSet + {comp.id};
      components := components + [comp];
    }

    /**
     * The body of parseComponent's `try` once `name` and `type` have been
     * read: draw an id, build the component, record the id and append the
     * component.
     */
    method AddComponent(json: Obj, name: string, typ: string, uuids: nat -> string) returns (id: string)
      requires Valid()
      requires Header(json) == Ok((name, typ))
      requires exists k: nat :: uuids(k) !in uidSet
      modifies this`components, this`uidSet
      ensures Valid()
      ensures id !in old(uidSet) && uidSet == old(uidSet) + {id}
      ensures |components| == |old(components)| + 1 && components[..|old(components)|] == old(components)
      ensures LastIs(json, id) && fresh(components[|components| - 1])
      ensures exists k: nat :: id == uuids(k) && forall j :: 0 <= j < k ==> uuids(j) in old(uidSet)
    {
      var kind := Resolve(typ);
      id := FreshId(uidSet, uuids);
      var comp := BuildComponent(json, name, kind, id);
      assert ComponentOf(json, id) == Some(comp.Value());
      Record(comp);
      assert components[..|old(components)|] == old(components);
    }

    /**
     * parseComponent: a document whose `name` or `type` is not a string is
     * dropped with an error and nothing else changes; otherwise a component
     * with a freshly drawn id is appended and the id is recorded as issued.
     */
    method ParseComponent(json: Obj, uuids: nat -> string) returns (added: Option<string>)
      requires Valid()
      requires exists k: nat :: uuids(k) !in uidSet
      modifies this
      ensures Valid()
      ensures Recorded(old(components), old(uidSet), json, added)
      ensures added.Some? ==> LastIs(json, added.value) && fresh(components[|components| - 1])
      ensures added.Some? ==>
                exists k: nat :: added.value == uuids(k) && forall j :: 0 <= j < k ==> uuids(j) in old(uidSet)
      ensures log == old(log) + if Header(json).Err? then [NoNameReport] else []
    {
      var nameRead := GetString(json, "name");
      if nameRead.Err? {
        log := log + [NoNameReport];
        return None;
      }
      var typeRead := GetString(json, "type");
      if typeRead.Err? {
        log := log + [NoNameReport];
        return None;
      }
      assert Header(json) == Ok((nameRead.value, typeRead.value));
      var id := AddComponent(json, nameRead.value, typeRead.value, uuids);
      added := Some(id);
    }

    /**
     * The `switch` of parse and the final DONE message: a component literal
     * hands the document to parseComponent, any other literal does nothing.
     */
    method Dispatch(json: Obj, typ: string, uuids: nat -> string) returns (outcome: Outcome)
      requires Valid()
      requires exists k: nat :: uuids(k) !in uidSet
      modifies this
      ensures Valid()
      ensures log == old(log) + if IsComponentLiteral(typ) then ComponentReports(json) else [DoneReport]
      ensures !IsComponentLiteral(typ) ==> outcome == Skipped && components == old(components) && uidSet == old(uidSet)
      ensures IsComponentLiteral(typ) ==> outcome.Parsed? && Recorded(old(components), old(uidSet), json, outcome.added)
      ensures IsComponentLiteral(typ) && outcome.added.Some? ==>
                LastIs(json, outcome.added.value) && fresh(components[|components| - 1])
    {
      if IsComponentLiteral(typ) {
        var added := ParseComponent(json, uuids);
        outcome := Parsed(added);
      } else {
        outcome := Skipped;
      }
      log := log + [DoneReport];
    }

    /** parse once the document has been loaded: the `type` member decides. */
    method ParseDocument(doc: Obj, uuids: nat -> string) returns (outcome: Outcome, stored: Option<Obj>)
      requires Valid()
      requires exists k: nat :: uuids(k) !in uidSet
      modifies this
      ensures Valid()
      ensures log == old(log) + Reports(RouteOf(Some(doc)))
      ensures stored == if RouteOf(Some(doc)).ToComponent? then Some(RouteOf(Some(doc)).doc) else Some(doc)
      ensures RouteOf(Some(doc)).TypeNotString? ==> outcome == TypeCastFailure
      ensures RouteOf(Some(doc)).Other? ==> outcome == Skipped
      ensures !RouteOf(Some(doc)).ToComponent? ==> components == old(components) && uidSet == old(uidSet)
      ensures RouteOf(Some(doc)).ToComponent? ==>
                outcome.Parsed? && Recorded(old(components), old(uidSet), RouteOf(Some(doc)).doc, outcome.added)
      ensures RouteOf(Some(doc)).ToComponent? && outcome.added.Some? ==>
                LastIs(RouteOf(Some(doc)).doc, outcome.added.value) && fresh(components[|components| - 1])
    {
      var read := Get(doc, "type");
      if read.Err? {
        outcome, stored := ParseUntyped(doc, uuids);
      } else if !read.value.JString? {
        outcome, stored := ParseNonStringType(doc);
      } else {
        outcome, stored := ParseTyped(doc, read.value.s, uuids);
      }
    }

    /** parse on a document whose `type` is not a string: the cast throws before anything is logged. */
    method ParseNonStringType(doc: Obj) returns (outcome: Outcome, stored: Option<Obj>)
      requires Get(doc, "type").Ok? && !Get(doc, "type").value.JString?
      ensures RouteOf(Some(doc)) == TypeNotString
      ensures outcome == TypeCastFailure && stored == Some(doc)
    {
      return TypeCastFailure, Some(doc);
    }

    /** parse on a document whose `type` is the string `typ`: the document is dispatched unchanged. */
    method ParseTyped(doc: Obj, typ: string, uuids: nat -> string) returns (outcome: Outcome, stored: Option<Obj>)
      requires Valid()
      requires exists k: nat :: uuids(k) !in uidSet
      requires Get(doc, "type") == Ok(JString(typ))
      modifies this
      ensures Valid()
      ensures log == old(log) + Reports(RouteOf(Some(doc)))
      ensures stored == if RouteOf(Some(doc)).ToComponent? then Some(RouteOf(Some(doc)).doc) else Some(doc)
      ensures RouteOf(Some(doc)).TypeNotString? ==> outcome == TypeCastFailure
      ensures RouteOf(Some(doc)).Other? ==> outcome == Skipped
      ensures !RouteOf(Some(doc)).ToComponent? ==> components == old(components) && uidSet == old(uidSet)
      ensures RouteOf(Some(doc)).ToComponent? ==>
                outcome.Parsed? && Recorded(old(components), old(uidSet), RouteOf(Some(doc)).doc, outcome.added)
      ensures RouteOf(Some(doc)).ToComponent? && outcome.added.Some? ==>
                LastIs(RouteOf(Some(doc)).doc, outcome.added.value) && fresh(components[|components| - 1])
    {
      assert RouteOf(Some(doc)) == if IsComponentLiteral(typ) then ToComponent(doc, false) else Other(typ);
      outcome := Dispatch(doc, typ, uuids);
      stored := Some(doc);
    }

    /**
     * parse on a document without `type`: the COMPONENT name is written into
     * it with a warning, and dispatch uses the local `type`, which still
     * holds its initial literal "component".
     */
    method ParseUntyped(doc: Obj, uuids: nat -> string) returns (outcome: Outcome, stored: Option<Obj>)
      requires Valid()
      requires exists k: nat :: uuids(k) !in uidSet
      requires Get(doc, "type").Err?
      modifies this
      ensures Valid()
      ensures RouteOf(Some(doc)) == ToComponent(Put(doc, "type", JString(ComponentKind.Name())), true)
      ensures log == old(log) + Reports(RouteOf(Some(doc)))
      ensures stored == Some(RouteOf(Some(doc)).doc)
      ensures outcome.Parsed? && Recorded(old(components), old(uidSet), RouteOf(Some(doc)).doc, outcome.added)
      ensures outcome.added.Some? ==>
                LastIs(RouteOf(Some(doc)).doc, outcome.added.value) && fresh(components[|components| - 1])
    {
      var json := Put(doc, "type", JString(ComponentKind.Name()));
      assert RouteOf(Some(doc)) == ToComponent(json, true);
      log := log + [NoTypeReport];
      ghost var before := log;
      outcome := Dispatch(json, "component", uuids);
      stored := Some(json);
      assert log == before + ComponentReports(json);
    }

    /**
     * parse: the loaded document (None when the loader found a syntax error)
     * is routed on its `type`; `stored` is the document as `parse` leaves it.
     */
    method Parse(loaded: Option<Obj>, uuids: nat -> string) returns (outcome: Outcome, stored: Option<Obj>)
      requires Valid()
      requires exists k: nat :: uuids(k) !in uidSet
      modifies this
      ensures Valid()
      ensures log == old(log) + Reports(RouteOf(loaded))
      ensures stored == if RouteOf(loaded).ToComponent? then Some(RouteOf(loaded).doc) else loaded
      ensures RouteOf(loaded).NoDocument? ==> outcome == SyntaxError
      ensures RouteOf(loaded).TypeNotString? ==> outcome == TypeCastFailure
      ensures RouteOf(loaded).Other? ==> outcome == Skipped
      ensures !RouteOf(loaded).ToComponent? ==> components == old(components) && uidSet == old(uidSet)
      ensures RouteOf(loaded).ToComponent? ==>
                outcome.Parsed? && Recorded(old(components), old(uidSet), RouteOf(loaded).doc, outcome.added)
      ensures RouteOf(loaded).ToComponent? && outcome.added.Some? ==>
                LastIs(RouteOf(loaded).doc, outcome.added.value) && fresh(components[|components| - 1])
    {
      if loaded.None? {
        log := log + [SyntaxErrorReport];
        return SyntaxError, None;
      }
      outcome, stored := ParseDocument(loaded.value, uuids);
    }
  }
}
