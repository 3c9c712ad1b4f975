/** Step templates: what a placeholder may name, and the bounded expansion that substitutes arguments for them. */
module StepTemplates {
  import opened Wrappers
  import Paths

  const MAX_DEPTH := 32
  const MAX_NODES := 10000
  const MAX_DOCUMENT_BYTES := 1048576

  /** JSON data. An object is the list of its fields; its keys are distinct and stand in their canonical order. */
  datatype Json =
    | Null
    | Boolean(flag: bool)
    | Integer(int)
    | Number(digits: string)
    | Text(text: string)
    | Array(items: Items)
    | Object(fields: Fields)

  datatype Items = Nil | Cons(head: Json, tail: Items)
  datatype Fields = Empty | Field(key: string, value: Json, rest: Fields)

  datatype Kind = BooleanKind | IntegerKind | NumberKind | StringKind | ArrayKind | ObjectKind

  /** `_matches` */
  predicate Matches(value: Json, kind: Kind) {
    match kind
    case BooleanKind => value.Boolean?
    case IntegerKind => value.Integer?
    case NumberKind => value.Integer? || value.Number?
    case StringKind => value.Text?
    case ArrayKind => value.Array?
    case ObjectKind => value.Object?
  }

  /** The operand of a mapping whose only key is `operation`. */
  function Operand(value: Json, operation: string): Option<Json> {
    if value.Object? && value.fields.Field? && value.fields.key == operation && value.fields.rest.Empty? then Some(value.fields.value)
    else None
  }

  function Param(value: Json): Option<Json> {
    Operand(value, "param")
  }

  function Spread(value: Json): Option<Json> {
    Operand(value, "spread")
  }

  // ----- _template -----

  /** `_template`: every placeholder names a declared parameter, and a spread stands in an array and names an array parameter. */
  predicate Template(value: Json, parameters: map<string, Kind>, inArray: bool)
    decreases value
  {
    if Param(value).Some? then Param(value).value.Text? && Param(value).value.text in parameters
    else if Spread(value).Some? then
      && Spread(value).value.Text? && Spread(value).value.text in parameters
      && inArray && parameters[Spread(value).value.text] == ArrayKind
    else match value
      case Object(fields) => TemplateFields(fields, parameters)
      case Array(items) => TemplateItems(items, parameters)
      case _ => true
  }

  predicate TemplateFields(fields: Fields, parameters: map<string, Kind>)
    decreases fields
  {
    fields.Field? ==> Template(fields.value, parameters, false) && TemplateFields(fields.rest, parameters)
  }

  predicate TemplateItems(items: Items, parameters: map<string, Kind>)
    decreases items
  {
    items.Cons? ==> Template(items.head, parameters, true) && TemplateItems(items.tail, parameters)
  }

  /** The mapping whose only key is `operation`. */
  ghost predicate IsPlaceholder(value: Json, operation: string) {
    value.Object? && value.fields.Field? && value.fields.key == operation && value.fields.rest.Empty?
  }

  /** Read as a template, `v` has `x` somewhere in it, directly in an array or not; what stands inside a placeholder is its name. */
  ghost predicate Within(x: Json, direct: bool, v: Json, inArray: bool)
    decreases v
  {
    || (x == v && direct == inArray)
    || (!IsPlaceholder(v, "param") && !IsPlaceholder(v, "spread")
        && match v
           case Object(fields) => WithinFields(x, direct, fields)
           case Array(items) => WithinItems(x, direct, items)
           case _ => false)
  }

  ghost predicate WithinFields(x: Json, direct: bool, fields: Fields)
    decreases fields
  {
    fields.Field? && (Within(x, direct, fields.value, false) || WithinFields(x, direct, fields.rest))
  }

  ghost predicate WithinItems(x: Json, direct: bool, items: Items)
    decreases items
  {
    items.Cons? && (Within(x, direct, items.head, true) || WithinItems(x, direct, items.tail))
  }

  /** A placeholder names a declared parameter, and a spread stands in an array and names an array. */
  ghost predicate Proper(x: Json, direct: bool, parameters: map<string, Kind>) {
    && (IsPlaceholder(x, "param") ==> x.fields.value.Text? && x.fields.value.text in parameters)
    && (IsPlaceholder(x, "spread") ==>
          direct && x.fields.value.Text? && x.fields.value.text in parameters && parameters[x.fields.value.text] == ArrayKind)
  }

  /** A template is accepted exactly if every placeholder in it is proper. */
  lemma {:induction false} TemplateExact(value: Json, parameters: map<string, Kind>, inArray: bool)
    ensures Template(value, parameters, inArray) <==> forall x, direct :: Within(x, direct, value, inArray) ==> Proper(x, direct, parameters)
    decreases value
  {
    assert Within(value, inArray, value, inArray);
    if IsPlaceholder(value, "param") || IsPlaceholder(value, "spread") {
      OnlyItself(value, inArray);
      assert Template(value, parameters, inArray) <==> Proper(value, inArray, parameters);
      hide Within, Template, Proper;
    } else {
      assert Proper(value, inArray, parameters);
      match value
      case Object(fields) =>
        TemplateFieldsExact(fields, parameters);
        assert forall x, direct :: WithinFields(x, direct, fields) ==> Within(x, direct, value, inArray);
      case Array(items) =>
        TemplateItemsExact(items, parameters);
        assert forall x, direct :: WithinItems(x, direct, items) ==> Within(x, direct, value, inArray);
      case _ =>
    }
  }

  lemma OnlyItself(value: Json, inArray: bool)
    requires IsPlaceholder(value, "param") || IsPlaceholder(value, "spread")
    ensures forall x, direct :: Within(x, direct, value, inArray) <==> x == value && direct == inArray
  {
  }

  lemma {:induction false} TemplateFieldsExact(fields: Fields, parameters: map<string, Kind>)
    ensures TemplateFields(fields, parameters) <==> forall x, direct :: WithinFields(x, direct, fields) ==> Proper(x, direct, parameters)
    decreases fields
  {
    if fields.Field? {
      TemplateExact(fields.value, parameters, false);
      TemplateFieldsExact(fields.rest, parameters);
      hide Within, Template, Proper;
    }
  }

  lemma {:induction false} TemplateItemsExact(items: Items, parameters: map<string, Kind>)
    ensures TemplateItems(items, parameters) <==> forall x, direct :: WithinItems(x, direct, items) ==> Proper(x, direct, parameters)
    decreases items
  {
    if items.Cons? {
      TemplateExact(items.head, parameters, true);
      TemplateItemsExact(items.tail, parameters);
      hide Within, Template, Proper;
    }
  }

  /** Every value but null is of one kind, and of no other, but for integers, which are numbers too. */
  lemma KindsExact(value: Json, kind: Kind, other: Kind)
    ensures value.Null? <==> forall k: Kind :: !Matches(value, k)
    ensures Matches(value, kind) && Matches(value, other) && kind != other ==> value.Integer? && {kind, other} == {IntegerKind, NumberKind}
    ensures value.Integer? ==> Matches(value, IntegerKind) && Matches(value, NumberKind)
  {
    assert !value.Null? ==> Matches(value, BooleanKind) || Matches(value, NumberKind) || Matches(value, StringKind) || Matches(value, ArrayKind) || Matches(value, ObjectKind);
  }

  // ----- What an expansion is -----

  function Append(a: Items, b: Items): Items {
    match a
    case Nil => b
    case Cons(x, rest) => Cons(x, Append(rest, b))
  }

  function JoinFields(a: Fields, b: Fields): Fields {
    match a
    case Empty => b
    case Field(k, v, rest) => Field(k, v, JoinFields(rest, b))
  }

  function Lookup(bindings: map<string, Json>, name: Json): Option<Json> {
    if name.Text? && name.text in bindings then Some(bindings[name.text]) else None
  }

  /** Every placeholder replaced at once: an argument stands as it is, a spread puts the elements of its argument in its place, in order, and nothing inside an argument is looked at. A placeholder without an argument has no meaning; it is left as it is. */
  function Substituted(value: Json, bindings: map<string, Json>): Json
    decreases value
  {
    if Param(value).Some? && Lookup(bindings, Param(value).value).Some? then Lookup(bindings, Param(value).value).value
    else match value
      case Object(fields) => Object(SubstitutedFields(fields, bindings))
      case Array(items) => Array(SubstitutedItems(items, bindings))
      case _ => value
  }

  function SubstitutedFields(fields: Fields, bindings: map<string, Json>): Fields
    decreases fields
  {
    match fields
    case Empty => Empty
    case Field(key, value, rest) => Field(key, Substituted(value, bindings), SubstitutedFields(rest, bindings))
  }

  function SubstitutedItems(items: Items, bindings: map<string, Json>): Items
    decreases items
  {
    match items
    case Nil => Nil
    case Cons(head, tail) =>
      var argument := if Spread(head).Some? then Lookup(bindings, Spread(head).value) else None;
      if argument.Some? && argument.value.Array?
      then Append(argument.value.items, SubstitutedItems(tail, bindings))
      else Cons(Substituted(head, bindings), SubstitutedItems(tail, bindings))
  }

  ghost function Listed(items: Items): seq<Json> {
    match items
    case Nil => []
    case Cons(head, tail) => [head] + Listed(tail)
  }

  lemma {:induction false} AppendLists(a: Items, b: Items)
    ensures Listed(Append(a, b)) == Listed(a) + Listed(b)
  {
    if a.Cons? {
      AppendLists(a.tail, b);
    }
  }

  /** An argument takes the place of its placeholder as it is. */
  lemma PlaceholderReplaced(name: string, bindings: map<string, Json>)
    requires name in bindings
    ensures Substituted(Object(Field("param", Text(name), Empty)), bindings) == bindings[name]
  {
  }

  /** The elements of an array argument take the place of its spread, in order, and what follows is expanded after them. */
  lemma SpreadSpliced(name: string, elements: Items, tail: Items, bindings: map<string, Json>)
    requires name in bindings && bindings[name] == Array(elements)
    ensures Listed(SubstitutedItems(Cons(Object(Field("spread", Text(name), Empty)), tail), bindings)) == Listed(elements) + Listed(SubstitutedItems(tail, bindings))
  {
    AppendLists(elements, SubstitutedItems(tail, bindings));
  }

  /** Nothing in `value` is a placeholder. */
  ghost predicate Closed(value: Json)
    decreases value
  {
    && !IsPlaceholder(value, "param") && !IsPlaceholder(value, "spread")
    && match value
       case Object(fields) => ClosedFields(fields)
       case Array(items) => ClosedItems(items)
       case _ => true
  }

  ghost predicate ClosedFields(fields: Fields)
    decreases fields
  {
    fields.Field? ==> Closed(fields.value) && ClosedFields(fields.rest)
  }

  ghost predicate ClosedItems(items: Items)
    decreases items
  {
    items.Cons? ==> Closed(items.head) && ClosedItems(items.tail)
  }

  /** A value without placeholders is left as it is. */
  lemma {:induction false} ClosedStays(value: Json, bindings: map<string, Json>)
    requires Closed(value)
    ensures Substituted(value, bindings) == value
    decreases value
  {
    match value
    case Object(fields) => ClosedFieldsStay(fields, bindings);
    case Array(items) => ClosedItemsStay(items, bindings);
    case _ =>
  }

  lemma {:induction false} ClosedFieldsStay(fields: Fields, bindings: map<string, Json>)
    requires ClosedFields(fields)
    ensures SubstitutedFields(fields, bindings) == fields
    decreases fields
  {
    if fields.Field? {
      ClosedStays(fields.value, bindings);
      ClosedFieldsStay(fields.rest, bindings);
    }
  }

  lemma {:induction false} ClosedItemsStay(items: Items, bindings: map<string, Json>)
    requires ClosedItems(items)
    ensures SubstitutedItems(items, bindings) == items
    decreases items
  {
    if items.Cons? {
      ClosedStays(items.head, bindings);
      ClosedItemsStay(items.tail, bindings);
    }
  }

  /** What `copy` is to return: the value itself, or with bindings its expansion. */
  function Expanded(value: Json, bindings: Option<map<string, Json>>): Json {
    match bindings
    case None => value
    case Some(b) => Substituted(value, b)
  }

  // ----- Sizes -----

  function Nodes(value: Json): nat {
    match value
    case Object(fields) => 1 + FieldNodes(fields)
    case Array(items) => 1 + ItemNodes(items)
    case _ => 1
  }

  function FieldNodes(fields: Fields): nat {
    match fields
    case Empty => 0
    case Field(_, value, rest) => Nodes(value) + FieldNodes(rest)
  }

  function ItemNodes(items: Items): nat {
    match items
    case Nil => 0
    case Cons(head, tail) => Nodes(head) + ItemNodes(tail)
  }

  /** What the byte counter adds up for a value. */
  function Bytes(value: Json): nat {
    2 + match value
        case Object(fields) => FieldBytes(fields)
        case Array(items) => ItemBytes(items)
        case Text(text) => Paths.Utf8Length(text)
        case _ => 0
  }

  function FieldBytes(fields: Fields): nat {
    match fields
    case Empty => 0
    case Field(key, value, rest) => Paths.Utf8Length(key) + Bytes(value) + FieldBytes(rest)
  }

  function ItemBytes(items: Items): nat {
    match items
    case Nil => 0
    case Cons(head, tail) => Bytes(head) + ItemBytes(tail)
  }

  /** Bytes a value takes at least as JSON text: a number at least one digit, and every element and field a separator or the closing bracket. */
  function TextBytes(value: Json): nat {
    match value
    case Object(fields) => if fields.Empty? then 2 else 1 + FieldTextBytes(fields)
    case Array(items) => if items.Nil? then 2 else 1 + ItemTextBytes(items)
    case Text(text) => Paths.Utf8Length(text) + 2
    case Null => 4
    case Boolean(_) => 4
    case _ => 1
  }

  function FieldTextBytes(fields: Fields): nat {
    match fields
    case Empty => 0
    case Field(key, value, rest) => Paths.Utf8Length(key) + 3 + TextBytes(value) + 1 + FieldTextBytes(rest)
  }

  function ItemTextBytes(items: Items): nat {
    match items
    case Nil => 0
    case Cons(head, tail) => TextBytes(head) + 1 + ItemTextBytes(tail)
  }

  /** JSON text is never shorter than what the byte counter adds up, but for one byte. */
  lemma {:induction false} TextCovers(value: Json)
    ensures Bytes(value) <= TextBytes(value) + 1
    decreases value
  {
    match value
    case Object(fields) => FieldTextCovers(fields);
    case Array(items) => ItemTextCovers(items);
    case _ =>
  }

  lemma {:induction false} FieldTextCovers(fields: Fields)
    ensures FieldBytes(fields) <= FieldTextBytes(fields)
    decreases fields
  {
    if fields.Field? {
      TextCovers(fields.value);
      FieldTextCovers(fields.rest);
    }
  }

  lemma {:induction false} ItemTextCovers(items: Items)
    ensures ItemBytes(items) <= ItemTextBytes(items)
    decreases items
  {
    if items.Cons? {
      TextCovers(items.head);
      ItemTextCovers(items.tail);
    }
  }

  function Max(a: nat, b: nat): nat {
    if a < b then b else a
  }

  /** Levels below a value. */
  function Depth(value: Json): nat {
    match value
    case Object(fields) => FieldDepth(fields)
    case Array(items) => ItemDepth(items)
    case _ => 0
  }

  function FieldDepth(fields: Fields): nat {
    match fields
    case Empty => 0
    case Field(_, value, rest) => Max(1 + Depth(value), FieldDepth(rest))
  }

  function ItemDepth(items: Items): nat {
    match items
    case Nil => 0
    case Cons(head, tail) => Max(1 + Depth(head), ItemDepth(tail))
  }

  lemma {:induction false} AppendSizes(a: Items, b: Items)
    ensures ItemNodes(Append(a, b)) == ItemNodes(a) + ItemNodes(b)
    ensures ItemBytes(Append(a, b)) == ItemBytes(a) + ItemBytes(b)
    ensures ItemDepth(Append(a, b)) == Max(ItemDepth(a), ItemDepth(b))
  {
    if a.Cons? {
      AppendSizes(a.tail, b);
    }
  }

  lemma {:induction false} AppendAssociative(a: Items, b: Items, c: Items)
    ensures Append(Append(a, b), c) == Append(a, Append(b, c))
  {
    if a.Cons? {
      AppendAssociative(a.tail, b, c);
    }
  }

  lemma {:induction false} AppendNil(a: Items)
    ensures Append(a, Nil) == a
  {
    if a.Cons? {
      AppendNil(a.tail);
    }
  }

  lemma {:induction false} JoinAssociative(a: Fields, b: Fields, c: Fields)
    ensures JoinFields(JoinFields(a, b), c) == JoinFields(a, JoinFields(b, c))
  {
    if a.Field? {
      JoinAssociative(a.rest, b, c);
    }
  }

  lemma {:induction false} JoinEmpty(a: Fields)
    ensures JoinFields(a, Empty) == a
  {
    if a.Field? {
      JoinEmpty(a.rest);
    }
  }

  // ----- The budget -----

  datatype Counter = Counter(nodes: nat, bytes: nat)

  /** Whether an expansion stays within its bounds, where its counters end, and whether it would look up a placeholder that has no usable argument. */
  datatype Charged = Charged(counter: Counter) | OverBounds | Unbound

  predicate WithinBounds(c: Counter) {
    c.nodes <= MAX_NODES && c.bytes <= MAX_DOCUMENT_BYTES
  }

  /** The counters of copying `value` at `depth`: both are checked only on entering a node. */
  function Charge(value: Json, depth: nat, bindings: Option<map<string, Json>>, c: Counter): Charged
    decreases bindings.Some?, value, 0
  {
    if depth > MAX_DEPTH then OverBounds
    else if bindings.Some? && Param(value).Some? then
      var argument := Lookup(bindings.value, Param(value).value);
      if argument.None? then Unbound else Charge(argument.value, depth, None, c)
    else
      var entered := Counter(c.nodes + 1, c.bytes + 2);
      if !WithinBounds(entered) then OverBounds
      else match value
        case Object(fields) => ChargeFields(fields, depth, bindings, entered)
        case Array(items) => ChargeItems(items, depth, bindings, entered)
        case Text(text) => Charged(entered.(bytes := entered.bytes + Paths.Utf8Length(text)))
        case _ => Charged(entered)
  }

  function ChargeFields(fields: Fields, depth: nat, bindings: Option<map<string, Json>>, c: Counter): Charged
    decreases bindings.Some?, fields, 0
  {
    match fields
    case Empty => Charged(c)
    case Field(key, value, rest) =>
      match Charge(value, depth + 1, bindings, c.(bytes := c.bytes + Paths.Utf8Length(key)))
      case Charged(next) => ChargeFields(rest, depth, bindings, next)
      case failed => failed
  }

  function ChargeItems(items: Items, depth: nat, bindings: Option<map<string, Json>>, c: Counter): Charged
    decreases bindings.Some?, items, 0
  {
    match items
    case Nil => Charged(c)
    case Cons(head, tail) =>
      var one := ChargeItem(head, depth, bindings, c);
      match one
      case Charged(next) => ChargeItems(tail, depth, bindings, next)
      case failed => failed
  }

  function ChargeItem(item: Json, depth: nat, bindings: Option<map<string, Json>>, c: Counter): Charged
    decreases bindings.Some?, item, 1
  {
    if bindings.Some? && Spread(item).Some? then
      var argument := Lookup(bindings.value, Spread(item).value);
      if argument.Some? && argument.value.Array? then ChargeItems(argument.value.items, depth, None, c) else Unbound
    else Charge(item, depth + 1, bindings, c)
  }

  /** What the counters say of a finished or refused copy: `grown` nodes and bytes, `deep` levels below `depth`. */
  ghost predicate Fair(r: Charged, c: Counter, nodes: nat, bytes: nat, depth: nat, deep: nat) {
    match r
    case Charged(next) =>
      && next == Counter(c.nodes + nodes, c.bytes + bytes) && next.nodes <= MAX_NODES && depth + deep <= MAX_DEPTH
    case OverBounds => c.nodes + nodes > MAX_NODES || c.bytes + bytes > MAX_DOCUMENT_BYTES || depth + deep > MAX_DEPTH
    case Unbound => true
  }

  function ExpandedFields(fields: Fields, bindings: Option<map<string, Json>>): Fields {
    match bindings
    case None => fields
    case Some(b) => SubstitutedFields(fields, b)
  }

  function ExpandedItems(items: Items, bindings: Option<map<string, Json>>): Items {
    match bindings
    case None => items
    case Some(b) => SubstitutedItems(items, b)
  }

  /** Every counter is exact: a copy that finishes has counted each node of its result once, and one that is refused would have exceeded a bound. */
  lemma {:induction false} ChargeExact(value: Json, depth: nat, bindings: Option<map<string, Json>>, c: Counter)
    ensures var r := Expanded(value, bindings); Fair(Charge(value, depth, bindings, c), c, Nodes(r), Bytes(r), depth, Depth(r))
    decreases bindings.Some?, value, 0
  {
    if depth > MAX_DEPTH {
    } else if bindings.Some? && Param(value).Some? {
      var argument := Lookup(bindings.value, Param(value).value);
      if argument.Some? {
        ChargeExact(argument.value, depth, None, c);
      }
    } else {
      var entered := Counter(c.nodes + 1, c.bytes + 2);
      if WithinBounds(entered) {
        match value {
          case Object(fields) => FieldsExact(fields, depth, bindings, entered);
          case Array(items) => ItemsExact(items, depth, bindings, entered);
          case _ =>
        }
      }
    }
  }

  lemma {:induction false} FieldsExact(fields: Fields, depth: nat, bindings: Option<map<string, Json>>, c: Counter)
    requires c.nodes <= MAX_NODES && depth <= MAX_DEPTH
    ensures var r := ExpandedFields(fields, bindings);
            Fair(ChargeFields(fields, depth, bindings, c), c, FieldNodes(r), FieldBytes(r), depth, FieldDepth(r))
    decreases bindings.Some?, fields, 0
  {
    if fields.Field? {
      var counted := c.(bytes := c.bytes + Paths.Utf8Length(fields.key));
      ChargeExact(fields.value, depth + 1, bindings, counted);
      var one := Charge(fields.value, depth + 1, bindings, counted);
      if one.Charged? {
        FieldsExact(fields.rest, depth, bindings, one.counter);
      }
    }
  }

  lemma {:induction false} ItemsExact(items: Items, depth: nat, bindings: Option<map<string, Json>>, c: Counter)
    requires c.nodes <= MAX_NODES && depth <= MAX_DEPTH
    ensures var r := ExpandedItems(items, bindings);
            Fair(ChargeItems(items, depth, bindings, c), c, ItemNodes(r), ItemBytes(r), depth, ItemDepth(r))
    decreases bindings.Some?, items, 0
  {
    if items.Cons? {
      var one := ChargeItem(items.head, depth, bindings, c);
      ItemExact(items.head, depth, bindings, c);
      if one.Charged? {
        ItemsExact(items.tail, depth, bindings, one.counter);
      }
      SplitOne(items, bindings);
    }
  }

  /** What one element of an array becomes: itself expanded, or the elements spread in its place. */
  function ExpandedItem(item: Json, bindings: Option<map<string, Json>>): Items {
    var argument := if bindings.Some? && Spread(item).Some? then Lookup(bindings.value, Spread(item).value) else None;
    if argument.Some? && argument.value.Array? then argument.value.items else Cons(Expanded(item, bindings), Nil)
  }

  lemma SplitOne(items: Items, bindings: Option<map<string, Json>>)
    requires items.Cons?
    ensures var first, rest := ExpandedItem(items.head, bindings), ExpandedItems(items.tail, bindings);
            && ExpandedItems(items, bindings) == Append(first, rest)
            && ItemNodes(ExpandedItems(items, bindings)) == ItemNodes(first) + ItemNodes(rest)
            && ItemBytes(ExpandedItems(items, bindings)) == ItemBytes(first) + ItemBytes(rest)
            && ItemDepth(ExpandedItems(items, bindings)) == Max(ItemDepth(first), ItemDepth(rest))
  {
    AppendSizes(ExpandedItem(items.head, bindings), ExpandedItems(items.tail, bindings));
  }

  lemma {:induction false} ItemExact(item: Json, depth: nat, bindings: Option<map<string, Json>>, c: Counter)
    requires c.nodes <= MAX_NODES && depth <= MAX_DEPTH
    ensures var r := ExpandedItem(item, bindings);
            Fair(ChargeItem(item, depth, bindings, c), c, ItemNodes(r), ItemBytes(r), depth, ItemDepth(r))
    decreases bindings.Some?, item, 1
  {
    hide Substituted, SubstitutedItems, Charge, ChargeItems, Nodes, Bytes, Depth;
    if bindings.Some? && Spread(item).Some? {
      var argument := Lookup(bindings.value, Spread(item).value);
      if argument.Some? && argument.value.Array? {
        ItemsExact(argument.value.items, depth, None, c);
      }
    } else {
      ChargeExact(item, depth + 1, bindings, c);
    }
  }

  // ----- Accepted templates have no missing lookup -----

  /** Every parameter has an argument of its type. */
  ghost predicate Typed(parameters: map<string, Kind>, bindings: map<string, Json>) {
    forall name :: name in parameters ==> name in bindings && Matches(bindings[name], parameters[name])
  }

  lemma {:induction false} NeverUnbound(value: Json, depth: nat, bindings: Option<map<string, Json>>, c: Counter, parameters: map<string, Kind>, inArray: bool)
    requires bindings.Some? ==> Template(value, parameters, inArray) && Typed(parameters, bindings.value) && (Spread(value).Some? ==> !inArray)
    ensures Charge(value, depth, bindings, c) != Unbound
    decreases bindings.Some?, value, 0
  {
    if depth > MAX_DEPTH {
    } else if bindings.Some? && Param(value).Some? {
      NeverUnbound(bindings.value[Param(value).value.text], depth, None, c, parameters, false);
    } else {
      var entered := Counter(c.nodes + 1, c.bytes + 2);
      match value {
        case Object(fields) => FieldsNeverUnbound(fields, depth, bindings, entered, parameters);
        case Array(items) => ItemsNeverUnbound(items, depth, bindings, entered, parameters);
        case _ =>
      }
    }
  }

  lemma {:induction false} FieldsNeverUnbound(fields: Fields, depth: nat, bindings: Option<map<string, Json>>, c: Counter, parameters: map<string, Kind>)
    requires bindings.Some? ==> TemplateFields(fields, parameters) && Typed(parameters, bindings.value)
    ensures ChargeFields(fields, depth, bindings, c) != Unbound
    decreases bindings.Some?, fields, 0
  {
    if fields.Field? {
      var counted := c.(bytes := c.bytes + Paths.Utf8Length(fields.key));
      NeverUnbound(fields.value, depth + 1, bindings, counted, parameters, false);
      var one := Charge(fields.value, depth + 1, bindings, counted);
      if one.Charged? {
        FieldsNeverUnbound(fields.rest, depth, bindings, one.counter, parameters);
      }
    }
  }

  lemma {:induction false} ItemsNeverUnbound(items: Items, depth: nat, bindings: Option<map<string, Json>>, c: Counter, parameters: map<string, Kind>)
    requires bindings.Some? ==> TemplateItems(items, parameters) && Typed(parameters, bindings.value)
    ensures ChargeItems(items, depth, bindings, c) != Unbound
    decreases bindings.Some?, items, 0
  {
    if items.Cons? {
      if bindings.Some? && Spread(items.head).Some? {
        ItemsNeverUnbound(bindings.value[Spread(items.head).value.text].items, depth, None, c, parameters);
      } else {
        NeverUnbound(items.head, depth + 1, bindings, c, parameters, true);
      }
      var one := ChargeItem(items.head, depth, bindings, c);
      if one.Charged? {
        ItemsNeverUnbound(items.tail, depth, bindings, one.counter, parameters);
      }
    }
  }

  /** A template that was accepted, with arguments of the declared types, expands to exactly its substitution or is refused for exceeding a bound; the node counter grows by the nodes of the result and never passes its limit. */
  lemma AcceptedTemplateExpands(value: Json, parameters: map<string, Kind>, bindings: map<string, Json>, c: Counter)
    requires Template(value, parameters, false) && Typed(parameters, bindings)
    ensures var r := Substituted(value, bindings);
            match Charge(value, 0, Some(bindings), c)
            case Unbound => false
            case OverBounds => c.nodes + Nodes(r) > MAX_NODES || c.bytes + Bytes(r) > MAX_DOCUMENT_BYTES || Depth(r) > MAX_DEPTH
            case Charged(next) => next.nodes == c.nodes + Nodes(r) <= MAX_NODES && Depth(r) <= MAX_DEPTH
  {
    NeverUnbound(value, 0, Some(bindings), c, parameters, false);
    ChargeExact(value, 0, Some(bindings), c);
  }

  // ----- Only declared parameters matter -----

  lemma {:induction false} LettersLength(n: nat)
    ensures Paths.Utf8Length(seq(n, _ => 'a')) == n
  {
    if n > 0 {
      assert seq(n, _ => 'a')[1..] == seq(n - 1, _ => 'a');
      LettersLength(n - 1);
    }
  }

  /** The byte bound is looked at only on entering a node, so a finished expansion may be past it. */
  lemma BytesAreNotBounded()
    ensures exists value: Json, c: Counter :: Charge(value, 0, None, Counter(0, 0)) == Charged(c) && c.bytes > MAX_DOCUMENT_BYTES
  {
    var text := seq(MAX_DOCUMENT_BYTES, _ => 'a');
    LettersLength(MAX_DOCUMENT_BYTES);
    assert Charge(Text(text), 0, None, Counter(0, 0)) == Charged(Counter(1, 2 + MAX_DOCUMENT_BYTES));
  }

  ghost predicate Agree(parameters: map<string, Kind>, a: map<string, Json>, b: map<string, Json>) {
    forall name :: name in parameters ==> (name in a <==> name in b) && (name in a ==> a[name] == b[name])
  }

  /** An accepted template depends on the arguments of declared parameters only. */
  lemma {:induction false} OnlyParametersMatter(value: Json, parameters: map<string, Kind>, inArray: bool, a: map<string, Json>, b: map<string, Json>)
    requires Template(value, parameters, inArray) && (Spread(value).Some? ==> !inArray) && Agree(parameters, a, b)
    ensures Substituted(value, a) == Substituted(value, b)
    decreases value
  {
    if Param(value).None? {
      match value {
        case Object(fields) => OnlyParametersMatterInFields(fields, parameters, a, b);
        case Array(items) => OnlyParametersMatterInItems(items, parameters, a, b);
        case _ =>
      }
    } else if Lookup(a, Param(value).value).None? {
      SameOperand(value, a, b);
    }
  }

  lemma OneTextField(value: Json, b: map<string, Json>)
    requires value.Object? && value.fields.Field? && value.fields.value.Text? && value.fields.rest.Empty?
    requires Param(value).Some? ==> Lookup(b, Param(value).value).None?
    ensures Substituted(value, b) == value
  {
    var operand := value.fields.value;
    assert Param(operand).None?;
    assert Substituted(operand, b) == operand;
    assert SubstitutedFields(value.fields.rest, b) == Empty;
  }

  /** A placeholder without an argument stays as it is. */
  lemma SameOperand(value: Json, a: map<string, Json>, b: map<string, Json>)
    requires Param(value).Some? && Param(value).value.Text?
    requires Lookup(a, Param(value).value).None? && Lookup(b, Param(value).value).None?
    ensures Substituted(value, a) == Substituted(value, b)
  {
    OneTextField(value, a);
    OneTextField(value, b);
  }

  lemma {:induction false} OnlyParametersMatterInFields(fields: Fields, parameters: map<string, Kind>, a: map<string, Json>, b: map<string, Json>)
    requires TemplateFields(fields, parameters) && Agree(parameters, a, b)
    ensures SubstitutedFields(fields, a) == SubstitutedFields(fields, b)
    decreases fields
  {
    if fields.Field? {
      OnlyParametersMatter(fields.value, parameters, false, a, b);
      OnlyParametersMatterInFields(fields.rest, parameters, a, b);
    }
  }

  lemma {:induction false} OnlyParametersMatterInItems(items: Items, parameters: map<string, Kind>, a: map<string, Json>, b: map<string, Json>)
    requires TemplateItems(items, parameters) && Agree(parameters, a, b)
    ensures SubstitutedItems(items, a) == SubstitutedItems(items, b)
    decreases items
  {
    if items.Cons? {
      if Spread(items.head).Some? {
        SpreadIsNoParam(items.head, parameters, a, b);
      } else {
        OnlyParametersMatter(items.head, parameters, true, a, b);
      }
      OnlyParametersMatterInItems(items.tail, parameters, a, b);
    }
  }

  lemma SpreadIsNoParam(value: Json, parameters: map<string, Kind>, a: map<string, Json>, b: map<string, Json>)
    requires Spread(value).Some? && Spread(value).value.Text?
    ensures Substituted(value, a) == Substituted(value, b)
  {
    OneTextField(value, a);
    OneTextField(value, b);
  }

  // ----- The expansion itself -----

  datatype Copied = Copied(value: Json) | Refused | MissingArgument

  datatype CopiedItems = CopiedItems(items: Items) | RefusedItems | MissingItem

  class Expansion {
    var nodes: nat
    var bytes: nat

    constructor ()
      ensures nodes == 0 && bytes == 0
    {
      nodes, bytes := 0, 0;
    }

    ghost function Now(): Counter
      reads this
    {
      Counter(nodes, bytes)
    }

    /** `copy` */
    method Copy(value: Json, depth: nat, bindings: Option<map<string, Json>>) returns (r: Copied)
      modifies this
      ensures match Charge(value, depth, bindings, old(Now()))
              case Charged(c) => r == Copied(Expanded(value, bindings)) && Now() == c
              case OverBounds => r == Refused
              case Unbound => r == MissingArgument
      decreases bindings.Some?, value, 0
    {
      if depth > MAX_DEPTH {
        return Refused;
      }
      if bindings.Some? && Param(value).Some? {
        var argument := Lookup(bindings.value, Param(value).value);
        if argument.None? {
          return MissingArgument;
        }
        r := Copy(argument.value, depth, None);
        return;
      }
      nodes, bytes := nodes + 1, bytes + 2;
      if nodes > MAX_NODES || bytes > MAX_DOCUMENT_BYTES {
        return Refused;
      }
      match value
      case Object(fields) =>
        ghost var entered := Now();
        var result, rest := Empty, fields;
        while rest.Field?
          invariant rest == fields || rest < fields
          invariant ChargeFields(fields, depth, bindings, entered) == ChargeFields(rest, depth, bindings, Now())
          invariant ExpandedFields(fields, bindings) == JoinFields(result, ExpandedFields(rest, bindings))
          decreases rest
        {
          bytes := bytes + Paths.Utf8Length(rest.key);
          var one := Copy(rest.value, depth + 1, bindings);
          if !one.Copied? {
            return one;
          }
          JoinAssociative(result, Field(rest.key, one.value, Empty), ExpandedFields(rest.rest, bindings));
          result := JoinFields(result, Field(rest.key, one.value, Empty));
          rest := rest.rest;
        }
        JoinEmpty(result);
        r := Copied(Object(result));
      case Array(items) =>
        var copied := CopyItems(items, depth, bindings);
        match copied {
          case CopiedItems(all) => r := Copied(Array(all));
          case RefusedItems => r := Refused;
          case MissingItem => r := MissingArgument;
        }
      case Text(text) =>
        bytes := bytes + Paths.Utf8Length(text);
        r := Copied(value);
      case _ =>
        r := Copied(value);
    }

    /** The list loop of `copy`: a spread puts the elements of its argument in its place. */
    method CopyItems(items: Items, depth: nat, bindings: Option<map<string, Json>>) returns (r: CopiedItems)
      modifies this
      ensures match ChargeItems(items, depth, bindings, old(Now()))
              case Charged(c) => r == CopiedItems(ExpandedItems(items, bindings)) && Now() == c
              case OverBounds => r == RefusedItems
              case Unbound => r == MissingItem
      decreases bindings.Some?, items, 0
    {
      var result, rest := Nil, items;
      while rest.Cons?
        invariant rest == items || rest < items
        invariant ChargeItems(items, depth, bindings, old(Now())) == ChargeItems(rest, depth, bindings, Now())
        invariant ExpandedItems(items, bindings) == Append(result, ExpandedItems(rest, bindings))
        decreases rest
      {
        var piece: Items;
        if bindings.Some? && Spread(rest.head).Some? {
          var argument := Lookup(bindings.value, Spread(rest.head).value);
          if argument.None? || !argument.value.Array? {
            return MissingItem;
          }
          var spread := CopyItems(argument.value.items, depth, None);
          if !spread.CopiedItems? {
            return spread;
          }
          piece := spread.items;
        } else {
          var one := Copy(rest.head, depth + 1, bindings);
          match one {
            case Copied(value) => piece := Cons(value, Nil);
            case Refused => return RefusedItems;
            case MissingArgument => return MissingItem;
          }
        }
        SplitOne(rest, bindings);
        AppendAssociative(result, piece, ExpandedItems(rest.tail, bindings));
        result := Append(result, piece);
        rest := rest.tail;
      }
      AppendNil(result);
      r := CopiedItems(result);
    }
  }
}
