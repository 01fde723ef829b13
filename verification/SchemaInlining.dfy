/** The two inliners of `$defs` references in JSON schemas: the cycle-safe one used for
    tool parameters and the strict one used by the planning loop. */
module SchemaInlining {
  import opened Wrappers
  import opened Counting

  /** JSON data. `Atom` stands for booleans and numbers; fields keep their order. */
  datatype Json = Null | Atom(id: int) | Str(text: string) | List(items: seq<Json>) | Obj(fields: seq<Field>)
  datatype Field = Field(key: string, value: Json)

  const PREFIX := "#/$defs/"

  function Get(fields: seq<Field>, key: string): Option<Json> {
    if fields == [] then None else if fields[0].key == key then Some(fields[0].value) else Get(fields[1..], key)
  }

  function Names(fields: seq<Field>): (names: set<string>)
    ensures forall key :: key in names <==> Get(fields, key).Some?
  {
    if fields == [] then {} else {fields[0].key} + Names(fields[1..])
  }

  predicate IsRefText(value: Json) { value.Str? && PREFIX <= value.text }

  /** The node is an object whose `$ref` is a text pointing into `$defs`. */
  predicate IsRef(node: Json) {
    node.Obj? && Get(node.fields, "$ref").Some? && IsRefText(Get(node.fields, "$ref").value)
  }

  function RefText(node: Json): string
    requires IsRef(node)
  {
    Get(node.fields, "$ref").value.text
  }

  /** What follows the last slash. */
  function LastSegment(s: string): string {
    if s == "" then "" else if s[|s| - 1] == '/' then "" else LastSegment(s[..|s| - 1]) + [s[|s| - 1]]
  }

  /** What follows the prefix. */
  function AfterPrefix(s: string): string
    requires PREFIX <= s
  {
    s[|PREFIX|..]
  }

  // ------------------------------------------------------------ the cycle-safe inliner

  function Resolve(node: Json, defs: seq<Field>, seen: set<string>): Json
    decreases |Names(defs) - seen|, node
  {
    if IsRef(node) then
      var name := LastSegment(RefText(node));
      if name !in Names(defs) || name in seen then Obj([])
      else
        SmallerLeft(Names(defs), seen, name);
        Resolve(Get(defs, name).value, defs, seen + {name})
    else
      match node
      case Obj(fields) => Obj(ResolveFields(fields, defs, seen))
      case List(items) => List(ResolveItems(items, defs, seen))
      case _ => node
  }

  function ResolveFields(fields: seq<Field>, defs: seq<Field>, seen: set<string>): seq<Field>
    decreases |Names(defs) - seen|, fields
  {
    if fields == [] then []
    else
      var rest := ResolveFields(fields[1..], defs, seen);
      if fields[0].key == "$defs" then rest
      else [Field(fields[0].key, Resolve(fields[0].value, defs, seen))] + rest
  }

  function ResolveItems(items: seq<Json>, defs: seq<Field>, seen: set<string>): seq<Json>
    decreases |Names(defs) - seen|, items
  {
    if items == [] then [] else [Resolve(items[0], defs, seen)] + ResolveItems(items[1..], defs, seen)
  }

  lemma SmallerLeft(names: set<string>, seen: set<string>, name: string)
    requires name in names && name !in seen
    ensures |names - (seen + {name})| < |names - seen|
  {
    assert names - seen == (names - (seen + {name})) + {name};
  }

  lemma FieldsFrom(fields: seq<Field>, i: nat, defs: seq<Field>, seen: set<string>)
    requires i < |fields|
    ensures ResolveFields(fields[i..], defs, seen)
            == (if fields[i].key == "$defs" then [] else [Field(fields[i].key, Resolve(fields[i].value, defs, seen))])
               + ResolveFields(fields[i + 1..], defs, seen)
  {
    assert fields[i..][1..] == fields[i + 1..];
  }

  lemma NoFieldsLeft(fields: seq<Field>, defs: seq<Field>, seen: set<string>)
    ensures ResolveFields(fields[|fields|..], defs, seen) == []
  {
  }

  lemma NoItemsLeft(items: seq<Json>, defs: seq<Field>, seen: set<string>)
    ensures ResolveItems(items[|items|..], defs, seen) == []
  {
  }

  lemma ItemsFrom(items: seq<Json>, i: nat, defs: seq<Field>, seen: set<string>)
    requires i < |items|
    ensures ResolveItems(items[i..], defs, seen) == [Resolve(items[i], defs, seen)] + ResolveItems(items[i + 1..], defs, seen)
  {
    assert items[i..][1..] == items[i + 1..];
  }

  /** The inliner as written: one shared `seen` set, added to before a definition is
      entered and discarded from afterwards. */
  class Inliner {
    const defs: seq<Field>
    var seen: set<string>

    constructor (defs: seq<Field>)
      ensures this.defs == defs && seen == {}
    {
      this.defs := defs;
      seen := {};
    }

    /** Computes the resolved node and leaves `seen` as it found it. */
    method ResolveNode(node: Json) returns (r: Json)
      modifies this
      ensures r == Resolve(node, defs, old(seen)) && seen == old(seen)
      decreases |Names(defs) - seen|, node
    {
      hide LastSegment, Names, Get, RefText;
      if IsRef(node) {
        var name := LastSegment(RefText(node));
        if name !in Names(defs) || name in seen { return Obj([]); }
        SmallerLeft(Names(defs), seen, name);
        seen := seen + {name};
        r := ResolveNode(Get(defs, name).value);
        seen := seen - {name};
        return;
      }
      match node
      case Obj(fields) =>
        var out := ResolveEntries(fields);
        r := Obj(out);
      case List(items) =>
        var out := ResolveElements(items);
        r := List(out);
      case Null => r := node;
      case Atom(_) => r := node;
      case Str(_) => r := node;
    }

    method ResolveEntries(fields: seq<Field>) returns (out: seq<Field>)
      modifies this
      ensures out == ResolveFields(fields, defs, old(seen)) && seen == old(seen)
      decreases |Names(defs) - seen|, fields
    {
      hide ResolveFields, Resolve, Names;
      out := [];
      for i := 0 to |fields|
        invariant seen == old(seen)
        invariant out + ResolveFields(fields[i..], defs, seen) == ResolveFields(fields, defs, seen)
      {
        FieldsFrom(fields, i, defs, seen);
        if fields[i].key != "$defs" {
          var value := ResolveNode(fields[i].value);
          out := out + [Field(fields[i].key, value)];
        }
      }
      NoFieldsLeft(fields, defs, seen);
    }

    method ResolveElements(items: seq<Json>) returns (out: seq<Json>)
      modifies this
      ensures out == ResolveItems(items, defs, old(seen)) && seen == old(seen)
      decreases |Names(defs) - seen|, items
    {
      hide ResolveItems, Resolve, Names;
      out := [];
      for i := 0 to |items|
        invariant seen == old(seen)
        invariant out + ResolveItems(items[i..], defs, seen) == ResolveItems(items, defs, seen)
      {
        ItemsFrom(items, i, defs, seen);
        var value := ResolveNode(items[i]);
        out := out + [value];
      }
      NoItemsLeft(items, defs, seen);
    }
  }

  /** The `$defs` table of a schema. */
  function DefsOf(schema: Json): seq<Field> {
    if schema.Obj? && Get(schema.fields, "$defs").Some? && Get(schema.fields, "$defs").value.Obj?
    then Get(schema.fields, "$defs").value.fields else []
  }

  function InlineSafely(schema: Json): Json { Resolve(schema, DefsOf(schema), {}) }

  // ---------------------------------------------------------- no reference survives

  /** No object anywhere in the node is a reference. */
  predicate RefFree(node: Json) {
    !IsRef(node)
    && match node
       case Obj(fields) => forall i :: 0 <= i < |fields| ==> RefFree(fields[i].value)
       case List(items) => forall i :: 0 <= i < |items| ==> RefFree(items[i])
       case _ => true
  }

  /** No definition that a reference can name is itself a bare reference text. */
  ghost predicate NoBareRefs(defs: seq<Field>) {
    forall name :: name in Names(defs) && '/' !in name ==> !IsRefText(Get(defs, name).value)
  }

  lemma {:induction false} SegmentHasNoSlash(s: string)
    ensures '/' !in LastSegment(s)
  {
    if s != "" {
      SegmentHasNoSlash(s[..|s| - 1]);
    }
  }

  lemma {:induction false} ResolvedGet(fields: seq<Field>, defs: seq<Field>, seen: set<string>, key: string)
    requires key != "$defs"
    ensures Get(ResolveFields(fields, defs, seen), key)
            == match Get(fields, key) case None => None case Some(v) => Some(Resolve(v, defs, seen))
    decreases fields
  {
    if fields != [] {
      ResolvedGet(fields[1..], defs, seen, key);
    }
  }

  /** Resolving leaves no reference, and turns no other value into a reference text. */
  lemma {:induction false} ResolvedIsRefFree(node: Json, defs: seq<Field>, seen: set<string>)
    requires NoBareRefs(defs)
    ensures RefFree(Resolve(node, defs, seen))
    ensures !IsRefText(node) ==> !IsRefText(Resolve(node, defs, seen))
    decreases |Names(defs) - seen|, node
  {
    if IsRef(node) {
      var name := LastSegment(RefText(node));
      if name in Names(defs) && name !in seen {
        SmallerLeft(Names(defs), seen, name);
        SegmentHasNoSlash(RefText(node));
        ResolvedIsRefFree(Get(defs, name).value, defs, seen + {name});
      }
    } else {
      match node
      case Obj(fields) =>
        ResolvedGet(fields, defs, seen, "$ref");
        var ref := Get(fields, "$ref");
        if ref.Some? {
          GetIsSmaller(fields, "$ref");
          ResolvedIsRefFree(ref.value, defs, seen);
        }
        FieldsAreRefFree(fields, defs, seen);
      case List(items) => ItemsAreRefFree(items, defs, seen);
      case _ =>
    }
  }

  lemma {:induction false} GetIsSmaller(fields: seq<Field>, key: string)
    requires Get(fields, key).Some?
    ensures exists i :: 0 <= i < |fields| && fields[i].value == Get(fields, key).value
  {
    if fields[0].key != key {
      GetIsSmaller(fields[1..], key);
      var i :| 0 <= i < |fields[1..]| && fields[1..][i].value == Get(fields[1..], key).value;
      assert fields[i + 1].value == Get(fields, key).value;
    }
  }

  lemma {:induction false} FieldsAreRefFree(fields: seq<Field>, defs: seq<Field>, seen: set<string>)
    requires NoBareRefs(defs)
    ensures forall i :: 0 <= i < |ResolveFields(fields, defs, seen)| ==> RefFree(ResolveFields(fields, defs, seen)[i].value)
    decreases |Names(defs) - seen|, fields
  {
    if fields != [] {
      FieldsAreRefFree(fields[1..], defs, seen);
      ResolvedIsRefFree(fields[0].value, defs, seen);
    }
  }

  lemma {:induction false} ItemsAreRefFree(items: seq<Json>, defs: seq<Field>, seen: set<string>)
    requires NoBareRefs(defs)
    ensures forall i :: 0 <= i < |ResolveItems(items, defs, seen)| ==> RefFree(ResolveItems(items, defs, seen)[i])
    decreases |Names(defs) - seen|, items
  {
    if items != [] {
      ItemsAreRefFree(items[1..], defs, seen);
      ResolvedIsRefFree(items[0], defs, seen);
    }
  }

  /** A schema over `defs`. */
  function WithDefs(defs: seq<Field>, fields: seq<Field>): Json { Obj([Field("$defs", Obj(defs))] + fields) }

  lemma {:induction false} SegmentOfName(name: string)
    requires '/' !in name
    ensures LastSegment(PREFIX + name) == name
  {
    var s := PREFIX + name;
    if name == "" {
      assert s[|s| - 1] == '/';
    } else {
      assert s[..|s| - 1] == PREFIX + name[..|name| - 1];
      SegmentOfName(name[..|name| - 1]);
    }
  }

  /** A bare reference definition escapes through a reference in the place of a `$ref` text. */
  lemma BareRefEscapes(defs: seq<Field>, name: string)
    requires name in Names(defs) && '/' !in name && IsRefText(Get(defs, name).value)
    ensures var inner := Obj([Field("$ref", Str(PREFIX + name))]);
            !RefFree(InlineSafely(WithDefs(defs, [Field("$ref", inner)])))
  {
    var inner := Obj([Field("$ref", Str(PREFIX + name))]);
    var fields := [Field("$ref", inner)];
    var schema := WithDefs(defs, fields);
    assert schema.fields[1..] == fields;
    assert DefsOf(schema) == defs;
    SegmentOfName(name);
    assert IsRef(inner) && RefText(inner) == PREFIX + name;
    assert Resolve(inner, defs, {}) == Get(defs, name).value;
    assert Get(schema.fields, "$ref") == Some(inner);
    assert !IsRef(schema);
    ResolvedGet(schema.fields, defs, {}, "$ref");
  }

  /** The output is free of references for every schema over `defs`, exactly when no
      definition is a bare reference text. */
  lemma SafeOutputExactlyWhenNoBareRefs(defs: seq<Field>)
    ensures NoBareRefs(defs) <==> forall fields :: RefFree(InlineSafely(WithDefs(defs, fields)))
  {
    if NoBareRefs(defs) {
      forall fields ensures RefFree(InlineSafely(WithDefs(defs, fields))) {
        ResolvedIsRefFree(WithDefs(defs, fields), defs, {});
      }
    } else {
      var name :| name in Names(defs) && '/' !in name && IsRefText(Get(defs, name).value);
      BareRefEscapes(defs, name);
    }
  }

  // ------------------------------------------------------------- the strict inliner

  datatype Expansion<+T> = Done(value: T) | UnknownDefinition(ref: string) | NotAnObject | Endless {
    predicate IsFailure() { !Done? }
    function PropagateFailure<U>(): Expansion<U>
      requires !Done?
    {
      match this
      case UnknownDefinition(ref) => UnknownDefinition(ref)
      case NotAnObject => NotAnObject
      case Endless => Endless
    }
    function Extract(): T
      requires Done?
    {
      value
    }
  }

  /** Replaces or appends one field, as assignment to a Python dict does. */
  function Put(fields: seq<Field>, f: Field): seq<Field> {
    if fields == [] then [f] else if fields[0].key == f.key then [f] + fields[1..] else [fields[0]] + Put(fields[1..], f)
  }

  function Merge(fields: seq<Field>, over: seq<Field>): seq<Field>
    decreases |over|
  {
    if over == [] then fields else Merge(Put(fields, over[0]), over[1..])
  }

  /** Expansion of a node. Entering a definition again while it is being expanded would
      repeat for ever, which is reported as `Endless`. */
  function Expand(node: Json, defs: seq<Field>, path: set<string>): Expansion<Json>
    decreases |Names(defs) - path|, node
  {
    match node
    case List(items) => var out :- ExpandItems(items, defs, path); Done(List(out))
    case Obj(fields) =>
      if IsRef(node) then
        var name := AfterPrefix(RefText(node));
        if name !in Names(defs) || Get(defs, name).value.Null? then UnknownDefinition(RefText(node))
        else if name in path then Endless
        else
          SmallerLeft(Names(defs), path, name);
          var resolved :- Expand(Get(defs, name).value, defs, path + {name});
          var siblings :- ExpandFields(fields, defs, path, "$ref");
          if !resolved.Obj? then NotAnObject else Done(Obj(Merge(resolved.fields, siblings)))
      else
        var out :- ExpandFields(fields, defs, path, "$defs"); Done(Obj(out))
    case _ => Done(node)
  }

  /** Expands every field but those under the dropped key. */
  function ExpandFields(fields: seq<Field>, defs: seq<Field>, path: set<string>, dropped: string): Expansion<seq<Field>>
    decreases |Names(defs) - path|, fields
  {
    if fields == [] then Done([])
    else if fields[0].key == dropped then ExpandFields(fields[1..], defs, path, dropped)
    else
      var value :- Expand(fields[0].value, defs, path);
      var rest :- ExpandFields(fields[1..], defs, path, dropped);
      Done([Field(fields[0].key, value)] + rest)
  }

  function ExpandItems(items: seq<Json>, defs: seq<Field>, path: set<string>): Expansion<seq<Json>>
    decreases |Names(defs) - path|, items
  {
    if items == [] then Done([])
    else
      var value :- Expand(items[0], defs, path);
      var rest :- ExpandItems(items[1..], defs, path);
      Done([value] + rest)
  }

  function InlineStrictly(schema: Json): Expansion<Json> { Expand(schema, DefsOf(schema), {}) }

  // --------------------------------------------------------- agreement of the two

  /** Every reference the inliners can meet stands alone in its object and has no slash in its name. */
  predicate Plain(node: Json) {
    match node
    case Obj(fields) =>
      if IsRef(node) then |fields| == 1 && '/' !in AfterPrefix(RefText(node))
      else forall i :: 0 <= i < |fields| && fields[i].key != "$defs" ==> Plain(fields[i].value)
    case List(items) => forall i :: 0 <= i < |items| ==> Plain(items[i])
    case _ => true
  }

  /** Every reference met has a rank below `bound` and names a definition. */
  predicate RefsBelow(node: Json, defs: seq<Field>, rank: map<string, nat>, bound: nat) {
    match node
    case Obj(fields) =>
      if IsRef(node) then
        var name := AfterPrefix(RefText(node));
        name in Names(defs) && name in rank && rank[name] < bound
      else forall i :: 0 <= i < |fields| && fields[i].key != "$defs" ==> RefsBelow(fields[i].value, defs, rank, bound)
    case List(items) => forall i :: 0 <= i < |items| ==> RefsBelow(items[i], defs, rank, bound)
    case _ => true
  }

  /** The definitions are plain objects whose references go to lower ranks: no cycle. */
  ghost predicate AcyclicDefs(defs: seq<Field>, rank: map<string, nat>) {
    forall name :: name in Names(defs) ==>
      var d := Get(defs, name).value;
      d.Obj? && Plain(d) && name in rank && RefsBelow(d, defs, rank, rank[name])
  }

  lemma LastSegmentIsAfterPrefix(s: string)
    requires PREFIX <= s && '/' !in AfterPrefix(s)
    ensures LastSegment(s) == AfterPrefix(s)
  {
    assert s == PREFIX + AfterPrefix(s);
    SegmentOfName(AfterPrefix(s));
  }

  lemma LoneResolve(node: Json, defs: seq<Field>, seen: set<string>, name: string)
    requires IsRef(node) && name == LastSegment(RefText(node)) && name in Names(defs) && name !in seen
    ensures Resolve(node, defs, seen) == Resolve(Get(defs, name).value, defs, seen + {name})
  {
    hide LastSegment, Names, IsRefText;
    assert node.Obj?;
  }

  lemma LoneExpand(node: Json, defs: seq<Field>, seen: set<string>, name: string, d: Json)
    requires IsRef(node) && |node.fields| == 1 && name == AfterPrefix(RefText(node)) && name in Names(defs) && name !in seen
    requires d.Obj? && !Get(defs, name).value.Null? && Expand(Get(defs, name).value, defs, seen + {name}) == Done(d)
    ensures Expand(node, defs, seen) == Done(d)
  {
    hide Names, IsRefText;
    assert node.fields[1..] == [];
    assert Get(node.fields[1..], "$ref") == None;
    assert node.fields[0].key == "$ref";
    assert ExpandFields(node.fields, defs, seen, "$ref") == Done([]);
  }

  lemma {:induction false} ExpandAgrees(node: Json, defs: seq<Field>, seen: set<string>, rank: map<string, nat>, bound: nat)
    requires AcyclicDefs(defs, rank) && Plain(node) && RefsBelow(node, defs, rank, bound)
    requires forall name :: name in seen && name in rank ==> rank[name] >= bound
    ensures Expand(node, defs, seen) == Done(Resolve(node, defs, seen))
    ensures node.Obj? ==> Resolve(node, defs, seen).Obj?
    decreases |Names(defs) - seen|, node
  {
    match node
    case List(items) => ExpandItemsAgrees(items, defs, seen, rank, bound);
    case Obj(fields) =>
      if IsRef(node) {
        hide Expand, Resolve;
        var name := AfterPrefix(RefText(node));
        SmallerLeft(Names(defs), seen, name);
        ExpandAgrees(Get(defs, name).value, defs, seen + {name}, rank, rank[name]);
        LastSegmentIsAfterPrefix(RefText(node));
        LoneResolve(node, defs, seen, name);
        LoneExpand(node, defs, seen, name, Resolve(Get(defs, name).value, defs, seen + {name}));
      } else {
        ExpandFieldsAgrees(fields, defs, seen, rank, bound);
      }
    case _ =>
  }

  lemma {:induction false} ExpandFieldsAgrees(fields: seq<Field>, defs: seq<Field>, seen: set<string>, rank: map<string, nat>, bound: nat)
    requires AcyclicDefs(defs, rank)
    requires forall i :: 0 <= i < |fields| && fields[i].key != "$defs" ==>
               Plain(fields[i].value) && RefsBelow(fields[i].value, defs, rank, bound)
    requires forall name :: name in seen && name in rank ==> rank[name] >= bound
    ensures ExpandFields(fields, defs, seen, "$defs") == Done(ResolveFields(fields, defs, seen))
    decreases |Names(defs) - seen|, fields
  {
    if fields != [] {
      ExpandFieldsAgrees(fields[1..], defs, seen, rank, bound);
      if fields[0].key != "$defs" {
        ExpandAgrees(fields[0].value, defs, seen, rank, bound);
      }
    }
  }

  lemma {:induction false} ExpandItemsAgrees(items: seq<Json>, defs: seq<Field>, seen: set<string>, rank: map<string, nat>, bound: nat)
    requires AcyclicDefs(defs, rank)
    requires forall i :: 0 <= i < |items| ==> Plain(items[i]) && RefsBelow(items[i], defs, rank, bound)
    requires forall name :: name in seen && name in rank ==> rank[name] >= bound
    ensures ExpandItems(items, defs, seen) == Done(ResolveItems(items, defs, seen))
    decreases |Names(defs) - seen|, items
  {
    if items != [] {
      ExpandItemsAgrees(items[1..], defs, seen, rank, bound);
      ExpandAgrees(items[0], defs, seen, rank, bound);
    }
  }

  /** On acyclic schemas whose references are known, stand alone and name objects, the
      strict inliner succeeds and the two give the same schema. */
  lemma InlinersAgree(schema: Json, rank: map<string, nat>, bound: nat)
    requires AcyclicDefs(DefsOf(schema), rank) && Plain(schema) && RefsBelow(schema, DefsOf(schema), rank, bound)
    ensures InlineStrictly(schema) == Done(InlineSafely(schema))
  {
    ExpandAgrees(schema, DefsOf(schema), {}, rank, bound);
  }

  lemma SingleField(key: string, value: Json, defs: seq<Field>, seen: set<string>)
    requires key != "$ref" && key != "$defs"
    ensures Resolve(Obj([Field(key, value)]), defs, seen) == Obj([Field(key, Resolve(value, defs, seen))])
    ensures Expand(value, defs, seen) == Endless ==> Expand(Obj([Field(key, value)]), defs, seen) == Endless
  {
    var fields := [Field(key, value)];
    assert fields[1..] == [];
    assert Get(fields, "$ref") == Get(fields[1..], "$ref") == None;
    assert !IsRef(Obj(fields));
    assert ResolveFields([], defs, seen) == [];
  }

  /** A definition that refers to itself makes the strict inliner recurse without end,
      while the cycle-safe one cuts the inner occurrence to an empty object. */
  lemma SelfReferenceSeparatesThem(name: string)
    requires '/' !in name
    ensures var ref := Obj([Field("$ref", Str(PREFIX + name))]);
            var defs := [Field(name, Obj([Field("items", ref)]))];
            Expand(ref, defs, {}) == Endless
            && Resolve(ref, defs, {}) == Obj([Field("items", Obj([]))])
  {
    var ref := Obj([Field("$ref", Str(PREFIX + name))]);
    var definition := Obj([Field("items", ref)]);
    var defs := [Field(name, definition)];
    SegmentOfName(name);
    assert AfterPrefix(PREFIX + name) == name;
    assert IsRef(ref) && RefText(ref) == PREFIX + name;
    assert Names(defs) == {name} && Get(defs, name) == Some(definition);
    assert {} + {name} == {name};
    assert Resolve(ref, defs, {name}) == Obj([]) && Expand(ref, defs, {name}) == Endless;
    SingleField("items", ref, defs, {name});
  }

  // ------------------------------------------------------ what merging siblings yields

  predicate DistinctFields(fields: seq<Field>) { forall i, j :: 0 <= i < j < |fields| ==> fields[i].key != fields[j].key }

  lemma {:induction false} PutGets(fields: seq<Field>, f: Field, key: string)
    ensures Get(Put(fields, f), key) == if key == f.key then Some(f.value) else Get(fields, key)
  {
    if fields != [] && fields[0].key != f.key {
      PutGets(fields[1..], f, key);
    }
  }

  /** In the merge of two objects the second one's value stands for every key it has, and the
      first one's for every other. */
  lemma {:induction false} MergeGets(fields: seq<Field>, over: seq<Field>, key: string)
    requires DistinctFields(over)
    ensures Get(Merge(fields, over), key) == if Get(over, key).Some? then Get(over, key) else Get(fields, key)
    decreases |over|
  {
    if over != [] {
      MergeGets(Put(fields, over[0]), over[1..], key);
      PutGets(fields, over[0], key);
      if key == over[0].key { AbsentKey(over[1..], key); }
    }
  }

  lemma {:induction false} AbsentKey(fields: seq<Field>, key: string)
    requires forall i :: 0 <= i < |fields| ==> fields[i].key != key
    ensures Get(fields, key) == None
  {
    if fields != [] { AbsentKey(fields[1..], key); }
  }

  function KeysOf(fields: seq<Field>): seq<string> { seq(|fields|, i requires 0 <= i < |fields| => fields[i].key) }

  lemma {:induction false} PutKeys(fields: seq<Field>, f: Field)
    ensures KeysOf(Put(fields, f)) == if f.key in KeysOf(fields) then KeysOf(fields) else KeysOf(fields) + [f.key]
  {
    if fields != [] {
      assert KeysOf(fields) == [fields[0].key] + KeysOf(fields[1..]);
      if fields[0].key == f.key {
        assert KeysOf([f] + fields[1..]) == [f.key] + KeysOf(fields[1..]);
        assert KeysOf(fields)[0] == f.key;
      } else {
        PutKeys(fields[1..], f);
        assert KeysOf([fields[0]] + Put(fields[1..], f)) == [fields[0].key] + KeysOf(Put(fields[1..], f));
      }
    }
  }

  /** Expanding the fields of an object expands the value under every key but the dropped one. */
  lemma {:induction false} ExpandedGet(fields: seq<Field>, defs: seq<Field>, path: set<string>, dropped: string, key: string)
    requires ExpandFields(fields, defs, path, dropped).Done?
    ensures key != dropped && Get(fields, key).Some? ==> Expand(Get(fields, key).value, defs, path).Done?
    ensures var out := ExpandFields(fields, defs, path, dropped).value;
            Get(out, key) == if key == dropped || Get(fields, key).None? then None
                             else Some(Expand(Get(fields, key).value, defs, path).value)
    decreases fields
  {
    hide Expand;
    if fields != [] {
      ExpandedGet(fields[1..], defs, path, dropped, key);
    }
  }

  lemma {:induction false} ExpandedIsDistinct(fields: seq<Field>, defs: seq<Field>, path: set<string>, dropped: string)
    requires ExpandFields(fields, defs, path, dropped).Done? && DistinctFields(fields)
    ensures var out := ExpandFields(fields, defs, path, dropped).value;
            DistinctFields(out) && forall f :: f in out ==> exists i :: 0 <= i < |fields| && fields[i].key == f.key
    decreases fields
  {
    hide Expand;
    if fields != [] {
      ExpandedIsDistinct(fields[1..], defs, path, dropped);
      var rest := ExpandFields(fields[1..], defs, path, dropped).value;
      if fields[0].key != dropped {
        var out := ExpandFields(fields, defs, path, dropped).value;
        assert out[1..] == rest && out[0].key == fields[0].key;
        forall i | 0 <= i < |rest| ensures rest[i].key != fields[0].key { assert rest[i] in rest; }
        forall f | f in out ensures exists i :: 0 <= i < |fields| && fields[i].key == f.key {
          if f in rest { var i :| 0 <= i < |fields[1..]| && fields[1..][i].key == f.key; assert fields[i + 1].key == f.key; }
        }
      } else {
        forall f | f in rest ensures exists i :: 0 <= i < |fields| && fields[i].key == f.key {
          var i :| 0 <= i < |fields[1..]| && fields[1..][i].key == f.key;
          assert fields[i + 1].key == f.key;
        }
      }
    }
  }

  /** A reference with siblings: every sibling keeps its key and overrides the definition there,
      and under every other key stands what the definition expands to. A reference to nothing,
      or to a null, fails with the reference; one to something that is no object fails too. */
  lemma SiblingsOverride(node: Json, defs: seq<Field>, path: set<string>, name: string, key: string)
    requires IsRef(node) && DistinctFields(node.fields) && name == AfterPrefix(RefText(node)) && name !in path
    ensures Get(defs, name) == None || Get(defs, name) == Some(Null) ==> Expand(node, defs, path) == UnknownDefinition(RefText(node))
    ensures Expand(node, defs, path).Done? ==>
              && Get(defs, name).Some? && Expand(Get(defs, name).value, defs, path + {name}).Done?
              && Expand(node, defs, path).value.Obj?
              && Expand(Get(defs, name).value, defs, path + {name}).value.Obj?
              && (key != "$ref" && Get(node.fields, key).Some? ==> Expand(Get(node.fields, key).value, defs, path).Done?)
              && Get(Expand(node, defs, path).value.fields, key)
                 == if key != "$ref" && Get(node.fields, key).Some? then Some(Expand(Get(node.fields, key).value, defs, path).value)
                    else Get(Expand(Get(defs, name).value, defs, path + {name}).value.fields, key)
  {
    if Expand(node, defs, path).Done? {
      ExpandedGet(node.fields, defs, path, "$ref", key);
      ExpandedIsDistinct(node.fields, defs, path, "$ref");
      var siblings := ExpandFields(node.fields, defs, path, "$ref").value;
      var fields := Expand(Get(defs, name).value, defs, path + {name}).value.fields;
      MergeGets(fields, siblings, key);
      hide ExpandFields, Merge;
    }
  }
}
