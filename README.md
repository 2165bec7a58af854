# LSS component parser, modelled in Dafny

LSS ("Logic CSS") describes user-interface components as JSON documents.
The `Parser` class of the LSS core:

- walks a directory tree and selects files by extension;
- reads each selected file as a JSON object;
- turns every document with a string `name` whose `type` is missing or is
  one of `component`, `id`, `class` into a `Component` bean, with its
  comments, styles, variables and actions; a document whose `name` is
  not a string gets no component, and one whose `type` is not a string
  ends the parse with an uncaught exception;
- gives each component a random UUID that has not been issued before;
- keeps the components, and the set of issued ids, for the rest of the
  session.

This project models that parser. It has five modules:

- `Wrappers` (json.dfy): the `Option` type.
- `JsonTree` (json.dfy): the org.json values the parser reads. An object is
  the ordered list of its members, in key-iteration order. The module also
  holds the accessors `get`, `getString`, `getJSONArray`, `getJSONObject`
  and `put`, and the `+ ""` string coercion. Each accessor returns `Ok`, or
  `Err` where org.json throws a `JSONException`.
- `Beans` (beans.dfy): the `ComponentType` enumeration, the `Style` and
  `Variable` values, and the `Action` and `Component` classes. The parser
  fills these classes in place. `Value()` takes a snapshot of their
  contents.
- `Transform` (transform.dfy): the specification functions. `ComponentOf`
  gives the component `parseComponent` builds for a document and an id, or
  `None` when it builds none. Each of the four blocks (comments, styles,
  variables, actions) is a function of the document. The lemmas about
  these functions hold for all inputs, apart from the Button lemmas, which
  work through the one example document.
- `Parsing` (parser.dfy): the `Parser` class, with its `components` list,
  its `uidSet` and a ghost log of the messages sent to the logger.
  - `ParseComponent` and `Parse` are the two methods of the source.
    `Parse` is split by route: `ParseDocument` branches on the loaded
    document's `type` into `ParseUntyped`, `ParseNonStringType` and
    `ParseTyped`, which share `Dispatch`, the `switch` of `parse`.
  - The UUID loop is `FreshId`.
  - Each `runIgnoring` block is its own loop method, proved against the
    block's specification function.
- `Access` (access.dfy): the two string rules of the directory walk: the
  "dist" skip and the extension of a file name.

The model follows the code where it differs from the documented behaviour of the
system:

- A `type` member that exists but is not a string is not defaulted. The
  cast `(String) json.get("type")` throws a `ClassCastException`, which
  nothing catches. So `parse` ends before anything is logged
  (`Route.TypeNotString`, `Outcome.TypeCastFailure`). The exception also
  leaves `access` (lines 35 and 45), so in the source the directory walk
  stops there and the remaining files are not parsed; the model returns
  `TypeCastFailure` normally and does not model the walk.
- The `switch` in `parse` compares the literals case-sensitively. So
  "Class" is skipped, even though `parseComponent` would resolve it to
  CLASS (`Parsing.MixedCaseTypeIsSkipped`).
- An action's nested `variables` and `styles` are read with `getString`.
  The first non-string value throws and ends that block, keeping the
  entries already added (`Transform.NestedEntriesArePrefix`). The
  top-level blocks coerce every value with `+ ""` instead.
- `name` may be the empty string: `getString("name")` accepts `""`, and so
  does `Transform.ComponentOf`, although the documented format calls the
  name required and non-empty.

## Model

| member | source | states |
|---|---|---|
| JsonTree.KeyIndex | core/src/com/akrck02/lss/lib/io/Parser.java:63 | the result is -1 or a position in range whose member has the key (that it is the first such position, and that -1 means absent, is `JsonTree.KeyIndexFirst`) |
| JsonTree.Put | core/src/com/akrck02/lss/lib/io/Parser.java:65 | after `put`, `type` reads back the new value; every other key reads as before; distinct keys stay distinct (the member order it also states is the model's choice, see Left out) |
| JsonTree.KeyIndexFirst | core/src/com/akrck02/lss/lib/io/Parser.java:63 | no member before the position found has the key, and no member at all when none is found |
| JsonTree.GetFirst | core/src/com/akrck02/lss/lib/io/Parser.java:119 | looking up a member's key returns that member's value when no earlier member has the same key |
| JsonTree.GetEntry | core/src/com/akrck02/lss/lib/io/Parser.java:119 | in an object with distinct keys, looking up any member's key returns that member's value |
| JsonTree.Get | core/src/com/akrck02/lss/lib/io/Parser.java:63 | `get(key)`: the value of the first member with that key, or a not-found error when no member has it |
| JsonTree.GetString | core/src/com/akrck02/lss/lib/io/Parser.java:88-89 | `getString(key)`: the value when it is a string; a not-found or wrong-type error otherwise |
| JsonTree.GetArray | core/src/com/akrck02/lss/lib/io/Parser.java:110 | `getJSONArray(key)`: the elements when the value is an array; a not-found or wrong-type error otherwise |
| JsonTree.GetObject | core/src/com/akrck02/lss/lib/io/Parser.java:118 | `getJSONObject(key)` (also lines 126, 135, 142 and 149): the object when the value is one; a not-found or wrong-type error otherwise |
| JsonTree.Text | core/src/com/akrck02/lss/lib/io/Parser.java:111 | `+ ""` (also lines 119 and 127): a string is itself and any other value is its compact JSON text |
| Transform.Resolve | core/src/com/akrck02/lss/lib/io/Parser.java:91-95 | the kind is the constant whose identifier equals the upper-cased type; when no constant matches, it is COMPONENT (the ignored IllegalArgumentException) |
| Transform.ResolveIgnoresCase | core/src/com/akrck02/lss/lib/io/Parser.java:93 | any spelling of a type's name that differs only in letter case resolves to that type |
| Transform.ComponentOf | core/src/com/akrck02/lss/lib/io/Parser.java:86-158 | no component exactly when `name` or `type` is not a string; otherwise the component carries that name, the given id and the resolved kind |
| Transform.StringPrefixSpec | core/src/com/akrck02/lss/lib/io/Parser.java:143-145 | the pairs read with `getString` are the leading string-valued members, in order and unchanged, up to the first member whose value is not a string |
| Transform.CommentsFailureIsolated | core/src/com/akrck02/lss/lib/io/Parser.java:109-112 | a `comments` member that is not an array empties the comments and leaves the rest of the component unchanged |
| Transform.StylesFailureIsolated | core/src/com/akrck02/lss/lib/io/Parser.java:117-120 | a `styles` member that is not an object empties the styles and leaves the rest of the component unchanged |
| Transform.VariablesFailureIsolated | core/src/com/akrck02/lss/lib/io/Parser.java:125-128 | a `variables` member that is not an object empties the variables and leaves the rest of the component unchanged |
| Transform.ActionsFailureIsolated | core/src/com/akrck02/lss/lib/io/Parser.java:134-156 | an `actions` member that is not an object empties the actions and leaves the rest of the component unchanged |
| Transform.MissingBlocksAreEmpty | core/src/com/akrck02/lss/lib/io/Parser.java:109-135 | a block whose member is missing (`getJSONArray`/`getJSONObject` throws) leaves that part of the component empty |
| Transform.ActionsFollowKeys | core/src/com/akrck02/lss/lib/io/Parser.java:136-154 | one action for each key of `actions`, in key order, named after the key, whose parent name is the type's suffix followed by the component name; an action whose entry is not an object is kept, with no variables and no styles |
| Transform.NestedEntriesArePrefix | core/src/com/akrck02/lss/lib/io/Parser.java:141-153 | an action's variables and styles are exactly the leading string-valued members of its nested object; the member after them, if any, is not a string |
| Transform.BlocksAreMappings | core/src/com/akrck02/lss/lib/io/Parser.java:117-128 | styles and variables read from objects with distinct keys have pairwise distinct keys |
| Transform.ButtonScenario | core/src/com/akrck02/lss/lib/io/Parser.java:86-158 | a complete example document yields the component with its style, its variable and its action with nested variable, with the action's styles empty |
| Transform.Header | core/src/com/akrck02/lss/lib/io/Parser.java:88-89 | the name and the type when both `getString` calls succeed; otherwise the error of the first that throws, name before type |
| Transform.CommentBlock | core/src/com/akrck02/lss/lib/io/Parser.java:109-112 | the `+ ""` text of every element of `comments`, in array order; None when `comments` is missing or not an array |
| Transform.StyleBlock | core/src/com/akrck02/lss/lib/io/Parser.java:117-120 | one Style per member of `styles`, its value coerced with `+ ""`; None when `styles` is missing or not an object |
| Transform.VariableBlock | core/src/com/akrck02/lss/lib/io/Parser.java:125-128 | one Variable per member of `variables`, its value coerced with `+ ""`; None when `variables` is missing or not an object |
| Transform.StringPrefix | core/src/com/akrck02/lss/lib/io/Parser.java:143-151 | the (key, string) pairs a `getString` `forEach` adds before the first non-string value throws |
| Transform.NestedEntries | core/src/com/akrck02/lss/lib/io/Parser.java:141-153 | the `getString` prefix of the action's nested `variables` or `styles`; empty when the action entry or that member is not an object |
| Transform.ActionOf | core/src/com/akrck02/lss/lib/io/Parser.java:137-154 | the Action for one key: named after the key, parent name suffix + component name, with that key's nested variables and styles |
| Transform.ActionBlock | core/src/com/akrck02/lss/lib/io/Parser.java:134-156 | one Action per key of `actions`, in iteration order; None when `actions` is missing or not an object |
| Transform.ActionsUpTo | core/src/com/akrck02/lss/lib/io/Parser.java:136-155 | the Actions built for the first n keys, in key order: exactly n of them |
| Transform.ActionsUpToAt | core/src/com/akrck02/lss/lib/io/Parser.java:136-155 | the k-th Action built is the one `ActionOf` gives for the k-th key |
| Parsing.RouteSpec | core/src/com/akrck02/lss/lib/io/Parser.java:54-78 | a document reaches parseComponent exactly when its `type` is missing or is one of the literals "component", "id" or "class"; when no default was written, it is the document as loaded |
| Parsing.MissingTypeDefaults | core/src/com/akrck02/lss/lib/io/Parser.java:61-67 | a missing `type` is written back as "component" and every other member is kept; a document with a string name then yields a COMPONENT component |
| Parsing.MixedCaseTypeIsSkipped | core/src/com/akrck02/lss/lib/io/Parser.java:69-76 | "Class" is routed to the default branch, although `valueOf` on its upper-cased form would give CLASS |
| Parsing.FreshId | core/src/com/akrck02/lss/lib/io/Parser.java:97-101 | the id returned has not been issued, and it is the first draw of the UUID stream that has not been issued |
| Parsing.ParseComments | core/src/com/akrck02/lss/lib/io/Parser.java:109-112 | the component's comments grow by exactly the comment block of the document |
| Parsing.ParseStyles | core/src/com/akrck02/lss/lib/io/Parser.java:117-120 | the component's styles grow by exactly the style block of the document |
| Parsing.ParseVariables | core/src/com/akrck02/lss/lib/io/Parser.java:125-128 | the component's variables grow by exactly the variable block of the document |
| Parsing.ParseActionVariables | core/src/com/akrck02/lss/lib/io/Parser.java:141-146 | the action's variables grow by exactly the leading string-valued members of its nested `variables` |
| Parsing.ParseActionStyles | core/src/com/akrck02/lss/lib/io/Parser.java:148-153 | the action's styles grow by exactly the leading string-valued members of its nested `styles` |
| Parsing.NewAction | core/src/com/akrck02/lss/lib/io/Parser.java:137-154 | a fresh Action named after the key at the given position, whose parent name is the type's suffix followed by the component name, with that key's nested variables and styles |
| Parsing.AppendActions | core/src/com/akrck02/lss/lib/io/Parser.java:136-155 | the `forEach` over the keys of an actions object appends exactly one fresh Action per key after the existing ones, keeps those unchanged, and the k-th new one is `ActionsUpTo`'s k-th |
| Parsing.ParseActions | core/src/com/akrck02/lss/lib/io/Parser.java:134-156 | new actions are appended after the existing ones, one per key, each a fresh object whose contents are the action block's entry for that key; nothing is added when `actions` is missing or not an object |
| Parsing.BuildComponent | core/src/com/akrck02/lss/lib/io/Parser.java:103-156 | a fresh component with the given name, kind and id and the document's four blocks, each empty when it cannot be read |
| Parsing.Parser.constructor | core/src/com/akrck02/lss/lib/io/Parser.java:18-22 | the session starts with no components and no issued ids |
| Parsing.Parser.Record | core/src/com/akrck02/lss/lib/io/Parser.java:158 | the id joins the issued set (line 104) and the component is appended; ids stay unique across the list |
| Parsing.Parser.AddComponent | core/src/com/akrck02/lss/lib/io/Parser.java:91-158 | the id is not yet issued and is the first such draw; it is recorded; exactly one fresh component, equal to `ComponentOf` for that id, is appended; ids stay unique |
| Parsing.Parser.ParseComponent | core/src/com/akrck02/lss/lib/io/Parser.java:86-163 | nothing is added exactly when `name` or `type` is not a string, and then only the error is logged; otherwise exactly one fresh component, equal to `ComponentOf` for the new id, is appended, the id is recorded as issued and nothing is logged; ids stay unique; earlier components are untouched, since only the parser itself may be modified |
| Parsing.Parser.Dispatch | core/src/com/akrck02/lss/lib/io/Parser.java:69-79 | a component literal hands the document to parseComponent, with its outcome; any other literal changes nothing; DONE is logged last in both cases |
| Parsing.Parser.ParseUntyped | core/src/com/akrck02/lss/lib/io/Parser.java:61-67 | a document without `type` takes the defaulted route: the COMPONENT name is written in, the warning and then the component messages are logged, it is parsed as a component, and the updated document is the one left behind |
| Parsing.Parser.ParseDocument | core/src/com/akrck02/lss/lib/io/Parser.java:61-80 | the outcome, the log and the state after each route of a loaded document, as for Parse |
| Parsing.Parser.ParseNonStringType | core/src/com/akrck02/lss/lib/io/Parser.java:63 | a `type` that is present but not a string takes the uncaught-cast route: TypeCastFailure, with the document, the log and the state as they were |
| Parsing.Parser.ParseTyped | core/src/com/akrck02/lss/lib/io/Parser.java:63-80 | a string `type` is dispatched as is: a component literal appends `ComponentOf`'s component, any other literal is skipped, and DONE is logged on both |
| Parsing.Parser.Parse | core/src/com/akrck02/lss/lib/io/Parser.java:54-80 | the messages logged on each route; a syntax error, a non-string type and an unlisted type add no component; otherwise the outcome is that of parseComponent on the document after any defaulting, which is also the document `parse` leaves behind |
| Parsing.RouteOf | core/src/com/akrck02/lss/lib/io/Parser.java:55-78 | null gives NoDocument; a missing `type` gives the document after `put`, marked defaulted; a string component literal gives ToComponent; another string gives Other; a non-string gives TypeNotString |
| Parsing.Parser.Valid | core/src/com/akrck02/lss/lib/io/Parser.java:97-104 | no two stored components share an id, and every stored id is in `uidSet` (the invariant the id loop and line 158 keep) |
| Parsing.Parser.Selects | core/src/com/akrck02/lss/lib/io/Parser.java:42 | a file is parsed when the extension of its name is one of the configured formats |
| Access.LastIndexOf | core/src/com/akrck02/lss/lib/io/Parser.java:39 | the position holds the character and none after it does; -1 when the character does not occur |
| Access.Extension | core/src/com/akrck02/lss/lib/io/Parser.java:38-40 | the extension is a dot-free suffix of the name, preceded by a '.' when the name has one, and the whole name otherwise |
| Access.ExtensionAfterLastDot | core/src/com/akrck02/lss/lib/io/Parser.java:39-40 | for every base name and dot-free text, the name `base.text` has the extension `text` |
| Access.MultiDotExtension | core/src/com/akrck02/lss/lib/io/Parser.java:39-40 | only the text after the last '.' counts |
| Access.DotlessExtension | core/src/com/akrck02/lss/lib/io/Parser.java:40 | a name without '.' is its own extension |
| Access.BackupIsNotCandidate | core/src/com/akrck02/lss/lib/io/Parser.java:38-42 | "button.json" is selected by the format "json", "button.json.bak" is not |
| Access.ContainsFrom | core/src/com/akrck02/lss/lib/io/Parser.java:29 | true exactly when the text occurs in the path at some position from the given one on |
| Access.IsCandidate | core/src/com/akrck02/lss/lib/io/Parser.java:40-42 | the extension of the name is in the given set of formats |
| Access.Contains | core/src/com/akrck02/lss/lib/io/Parser.java:29 | `String.contains`: some occurrence of `t` in `s`, at any position |
| Access.IsSkippedDirectory | core/src/com/akrck02/lss/lib/io/Parser.java:29 | a directory is not entered when "dist" occurs anywhere in its path |
| Access.SkipIsSubstring | core/src/com/akrck02/lss/lib/io/Parser.java:29 | a directory is skipped when "dist" occurs anywhere in its path ("distribution", "redistribute"), not only as a whole segment; "src/main" is entered |

## Left out

- Reading a file and parsing its text (`JsonUtils.parse`) are not part of
  this model. `Parse` takes the loaded document, or `None` for the null the
  loader returns on a syntax error.
- File-system access in `access` is not modelled: `isDirectory`, `list`,
  `getName`, the recursion over directory entries, the '/' appended to a
  path (line 30) and the console output (line 43). Only the two string
  decisions are modelled (`Access`). The configured formats
  (`config.getFormats()`) are the `formats` field of `Parser`, which
  `Parser.Selects` passes to `Access.IsCandidate`.
- `UUID.randomUUID` is a parameter: `uuids(k)` is the k-th draw. The
  callers must provide a stream in which some draw is fresh. Without this,
  the source's loop could run forever, and Dafny would refuse it.
- `Logger` is a ghost log of (level, tag, message) entries.
  `printStackTrace` is not modelled.
- A JSONObject's key order comes from a hash map. The model takes the order
  of a loaded document as given by the member list and proves facts that
  hold for any order.
- JsonTree.Put: the member order after `put` is the model's choice. An
  existing member keeps its place and a new one goes last, while org.json
  places the new key where its hash puts it and may reorder the others
  when the map grows. No other member depends on this order.
- `toUpperCase` is modelled for ASCII letters only. Locale-specific case
  mapping is not modelled.
- Numbers are integers. Floating-point values and their text form are not
  modelled.
- `Serialize` is the text `+ ""` gives for non-string values. It escapes
  only quotes, backslashes and the common control characters, with no
  `\u` escapes and no `/` escaping.
- `Component`, `Action`, `Style`, `Variable` and `ComponentType` are
  defined in the `com.akrck02.lss.lib.bean` package (imported at line 3),
  whose code this model does not cover. Their fields and setters are taken from how
  the parser uses them. The names "component", "id" and "class" come from
  the `switch` in `parse`. The suffixes "", "#" and "." are assumed values:
  the proofs never depend on them.
- `getComponents` (lines 171-173) is left out: it only returns the list.
- JSON objects with a repeated key are not excluded: `Obj` does not
  enforce distinct keys, which a real JSONObject always has. On such an
  object the style and variable blocks read each member's own value, while
  `get` would return the first member's; the lemmas that depend on
  distinct keys (`JsonTree.GetEntry`, `Transform.BlocksAreMappings`)
  require them explicitly.
