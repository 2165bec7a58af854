/**
 * The component model the parser produces: the component types, the Style
 * and Variable declarations, and the Action and Component objects that the
 * parser fills in place.
 */
module Beans {

  /** The enumeration Component.ComponentType: each constant has a display name and a suffix. */
  datatype ComponentType = ComponentKind | IdKind | ClassKind {
    /** The identifier of the enum constant, which `valueOf` matches. */
    function Constant(): string {
      match this
      case ComponentKind => "COMPONENT"
      case IdKind => "ID"
      case ClassKind => "CLASS"
    }

    /** `getName()`. */
    function Name(): string {
      match this
      case ComponentKind => "component"
      case IdKind => "id"
      case ClassKind => "class"
    }

    /** `getSuffix()`: prefixed to a component's name to form its actions' parent name. */
    function Suffix(): string {
      match this
      case ComponentKind => ""
      case IdKind => "#"
      case ClassKind => "."
    }
  }

  datatype Style = Style(key: string, value: string)

  datatype Variable = Variable(key: string, value: string)

  /** The contents of an Action object at one moment. */
  datatype ActionValue = ActionValue(name: string, parentName: string, variables: seq<Variable>, styles: seq<Style>)

  /** The contents of a Component object, its actions included, at one moment. */
  datatype ComponentValue = ComponentValue(
    name: string,
    kind: ComponentType,
    id: string,
    comments: seq<string>,
    styles: seq<Style>,
    variables: seq<Variable>,
    actions: seq<ActionValue>)

  class Action {
    var name: string
    var parentName: string
    var variables: seq<Variable>
    var styles: seq<Style>

    constructor ()
      ensures name == "" && parentName == "" && variables == [] && styles == []
    {
      name, parentName, variables, styles := "", "", [], [];
    }

    function Value(): ActionValue
      reads this
    {
      ActionValue(name, parentName, variables, styles)
    }

    method SetName(n: string)
      modifies this`name
      ensures name == n
    {
      name := n;
    }

    method SetParentName(n: string)
      modifies this`parentName
      ensures parentName == n
    {
      parentName := n;
    }

    method AddVariable(v: Variable)
      modifies this`variables
      ensures variables == old(variables) + [v]
    {
      variables := variables + [v];
    }

    method AddStyle(s: Style)
      modifies this`styles
      ensures styles == old(styles) + [s]
    {
      styles := styles + [s];
    }
  }

  class Component {
    const name: string
    const kind: ComponentType
    const id: string
    var comments: seq<string>
    var styles: seq<Style>
    var variables: seq<Variable>
    var actions: seq<Action>

    constructor (name: string, kind: ComponentType, id: string)
      ensures this.name == name && this.kind == kind && this.id == id
      ensures comments == [] && styles == [] && variables == [] && actions == []
    {
      this.name, this.kind, this.id := name, kind, id;
      comments, styles, variables, actions := [], [], [], [];
    }

    function Value(): ComponentValue
      reads this, actions
    {
      var acts := actions;
      ComponentValue(name, kind, id, comments, styles, variables,
                     seq(|acts|, i requires 0 <= i < |acts| reads acts => acts[i].Value()))
    }

    method AddComment(c: string)
      modifies this`comments
      ensures comments == old(comments) + [c]
    {
      comments := comments + [c];
    }

    method AddStyle(s: Style)
      modifies this`styles
      ensures styles == old(styles) + [s]
    {
      styles := styles + [s];
    }

    method AddVariable(v: Variable)
      modifies this`variables
      ensures variables == old(variables) + [v]
    {
      variables := variables + [v];
    }

    method AddAction(a: Action)
      modifies this`actions
      ensures actions == old(actions) + [a]
    {
      actions := actions + [a];
    }
  }
}
