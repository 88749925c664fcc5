/**
  The Arrow schema a table is served with (vgi/constraint_records.go,
  `servedNullability` and `resolveNotNullPath`): nullability is rewritten to
  follow the required column paths.

  Fields are named by position: a list of indices, each step through an
  ordinary struct.
 */
module Nullability {
  import opened Wrappers
  import opened PathKeys

  /** `rowId`, `generated` and `extension` say which metadata keys a field
      carries: the row-id key, a generated expression, or an extension name or
      logical type (which make a struct opaque). */
  datatype Field = Field(name: string, nullable: bool, rowId: bool, generated: bool, extension: bool, shape: Shape)

  datatype Shape = Leaf(typ: string) | Struct(children: seq<Field>)

  predicate Ordinary(f: Field) {
    f.shape.Struct? && !f.extension
  }

  function ChildrenOf(f: Field): seq<Field> {
    if Ordinary(f) then f.shape.children else []
  }

  type Position = seq<nat>

  /** The field at a position, if every step but the last goes through an
      ordinary struct. */
  function At(fields: seq<Field>, pos: Position): Option<Field>
    decreases |pos|
  {
    if pos == [] || pos[0] >= |fields| then None
    else if |pos| == 1 then Some(fields[pos[0]])
    else At(ChildrenOf(fields[pos[0]]), pos[1..])
  }

  /** The names along a position. */
  function NamesAt(fields: seq<Field>, pos: Position): seq<string>
    decreases |pos|
  {
    if pos == [] || pos[0] >= |fields| then []
    else [fields[pos[0]].name] + NamesAt(ChildrenOf(fields[pos[0]]), pos[1..])
  }

  predicate Reaches(fields: seq<Field>, pos: Position, path: seq<string>) {
    At(fields, pos).Some? && NamesAt(fields, pos) == path
  }

  // ---- servedNullability -----------------------------------------------------

  /** One field and, through ordinary structs, everything below it. */
  function Serve(required: set<string>, prefix: seq<string>, f: Field): Field
    decreases f
  {
    var path := prefix + [f.name];
    var served := f.(nullable := PathKey(path) !in required);
    if !Ordinary(f) then served
    else
      var kids := f.shape.children;
      served.(shape := Struct(seq(|kids|, i requires 0 <= i < |kids| => Serve(required, path, kids[i]))))
  }

  function ServeAll(required: set<string>, prefix: seq<string>, fields: seq<Field>): seq<Field> {
    seq(|fields|, i requires 0 <= i < |fields| => Serve(required, prefix, fields[i]))
  }

  /** A required path may not name a generated column. */
  predicate Refused(required: set<string>, f: Field) {
    !f.rowId && f.generated && PathKey([f.name]) in required
  }

  function ServeTop(required: set<string>, f: Field): Field {
    if f.rowId then f else Serve(required, [], f)
  }

  function ServedNullability(fields: seq<Field>, required: set<string>): Option<seq<Field>> {
    if exists i :: 0 <= i < |fields| && Refused(required, fields[i]) then None
    else Some(seq(|fields|, i requires 0 <= i < |fields| => ServeTop(required, fields[i])))
  }

  lemma ServedChildren(required: set<string>, prefix: seq<string>, f: Field)
    ensures ChildrenOf(Serve(required, prefix, f)) == ServeAll(required, prefix + [f.name], ChildrenOf(f))
  {
  }

  /** What a rewritten list holds at each position. */
  lemma {:induction false} ServedAt(required: set<string>, prefix: seq<string>, fields: seq<Field>, pos: Position)
    ensures var was, now := At(fields, pos), At(ServeAll(required, prefix, fields), pos);
            && was.Some? == now.Some?
            && (was.Some? ==> (now.value.nullable <==> PathKey(prefix + NamesAt(fields, pos)) !in required))
    ensures NamesAt(ServeAll(required, prefix, fields), pos) == NamesAt(fields, pos)
    decreases |pos|
  {
    if pos != [] && pos[0] < |fields| {
      var f := fields[pos[0]];
      assert ServeAll(required, prefix, fields)[pos[0]] == Serve(required, prefix, f);
      ServedChildren(required, prefix, f);
      ServedAt(required, prefix + [f.name], ChildrenOf(f), pos[1..]);
      if |pos| == 1 {
        assert NamesAt(fields, pos) == [f.name];
      }
      assert prefix + NamesAt(fields, pos) == prefix + [f.name] + NamesAt(ChildrenOf(f), pos[1..]);
    }
  }

  /** A field without the nullability of what is reachable in it. */
  function Blank(f: Field): Field
    decreases f
  {
    var blank := f.(nullable := true);
    if !Ordinary(f) then blank
    else
      var kids := f.shape.children;
      blank.(shape := Struct(seq(|kids|, i requires 0 <= i < |kids| => Blank(kids[i]))))
  }

  /** Nothing but reachable nullability changes. */
  lemma {:induction false} ServeKeepsRest(required: set<string>, prefix: seq<string>, f: Field)
    ensures Blank(Serve(required, prefix, f)) == Blank(f)
    decreases f
  {
    if Ordinary(f) {
      var kids := f.shape.children;
      forall i | 0 <= i < |kids|
        ensures Blank(Serve(required, prefix + [f.name], kids[i])) == Blank(kids[i])
      {
        ServeKeepsRest(required, prefix + [f.name], kids[i]);
      }
      assert Blank(Serve(required, prefix, f)).shape.children == Blank(f).shape.children;
    }
  }

  lemma {:induction false} ServeTwice(required: set<string>, prefix: seq<string>, f: Field)
    ensures Serve(required, prefix, Serve(required, prefix, f)) == Serve(required, prefix, f)
    decreases f
  {
    if Ordinary(f) {
      var once := Serve(required, prefix, f);
      var kids := f.shape.children;
      forall i | 0 <= i < |kids|
        ensures Serve(required, prefix + [f.name], once.shape.children[i]) == once.shape.children[i]
      {
        ServeTwice(required, prefix + [f.name], kids[i]);
      }
      assert Serve(required, prefix, once).shape.children == once.shape.children;
    }
  }

  /** A second pass with the same records is the identity. */
  lemma SecondPassIsIdentity(fields: seq<Field>, required: set<string>)
    requires ServedNullability(fields, required).Some?
    ensures ServedNullability(ServedNullability(fields, required).value, required) ==
      ServedNullability(fields, required)
  {
    var once := ServedNullability(fields, required).value;
    forall i | 0 <= i < |fields|
      ensures ServeTop(required, once[i]) == once[i] && !Refused(required, once[i])
    {
      assert !Refused(required, fields[i]);
      ServeTwice(required, [], fields[i]);
    }
    assert ServedNullability(once, required).Some?;
    assert ServedNullability(once, required).value == once;
  }

  /** Top-level row-id columns are untouched; every other reachable field is
      non-nullable exactly when its own path is required; names, types,
      metadata and unreachable fields are kept. */
  lemma ServedExact(fields: seq<Field>, required: set<string>, pos: Position)
    requires ServedNullability(fields, required).Some? && At(fields, pos).Some?
    ensures var out := ServedNullability(fields, required).value;
            && |out| == |fields| && At(out, pos).Some? && NamesAt(out, pos) == NamesAt(fields, pos)
            && Blank(out[pos[0]]) == Blank(fields[pos[0]])
            && (fields[pos[0]].rowId ==> out[pos[0]] == fields[pos[0]])
            && (!fields[pos[0]].rowId ==>
                  (!At(out, pos).value.nullable <==> PathKey(NamesAt(fields, pos)) in required))
  {
    var out := ServedNullability(fields, required).value;
    var f := fields[pos[0]];
    assert out[pos[0]] == ServeTop(required, f);
    if !f.rowId {
      ServeKeepsRest(required, [], f);
      ServedAt(required, [], fields, pos);
      SameBelow(out, ServeAll(required, [], fields), pos);
      assert [] + NamesAt(fields, pos) == NamesAt(fields, pos);
    }
  }

  lemma SameBelow(a: seq<Field>, b: seq<Field>, pos: Position)
    requires pos != [] && pos[0] < |a| == |b| && a[pos[0]] == b[pos[0]]
    ensures At(a, pos) == At(b, pos) && NamesAt(a, pos) == NamesAt(b, pos)
  {
  }

  // ---- resolveNotNullPath ------------------------------------------------------

  predicate Only(fields: seq<Field>, i: nat, name: string) {
    && i < |fields| && fields[i].name == name
    && forall j :: 0 <= j < |fields| && fields[j].name == name ==> j == i
  }

  /** Each component names exactly one field of the struct it is looked up in. */
  predicate Resolves(fields: seq<Field>, path: seq<string>)
    decreases |path|
  {
    path != [] &&
    exists i :: 0 <= i < |fields| && Only(fields, i, path[0]) &&
                (|path| > 1 ==> Resolves(ChildrenOf(fields[i]), path[1..]))
  }

  /** A path that resolves reaches exactly one field. */
  lemma {:induction false} ResolvedReachesOne(fields: seq<Field>, path: seq<string>) returns (pos: Position)
    requires Resolves(fields, path)
    ensures Reaches(fields, pos, path)
    ensures forall other :: Reaches(fields, other, path) ==> other == pos
    decreases |path|
  {
    var i :| 0 <= i < |fields| && Only(fields, i, path[0]) &&
      (|path| > 1 ==> Resolves(ChildrenOf(fields[i]), path[1..]));
    if |path| == 1 {
      pos := [i];
    } else {
      var rest := ResolvedReachesOne(ChildrenOf(fields[i]), path[1..]);
      pos := [i] + rest;
      assert pos[1..] == rest;
    }
    forall other | Reaches(fields, other, path)
      ensures other == pos
    {
      assert NamesAt(fields, other)[0] == fields[other[0]].name;
      assert other[0] == i;
      assert NamesAt(fields, other)[1..] == NamesAt(ChildrenOf(fields[i]), other[1..]);
      NamesHaveLength(fields, other);
      if |path| > 1 {
        assert Reaches(ChildrenOf(fields[i]), other[1..], path[1..]);
        assert other == [i] + other[1..];
      }
    }
  }

  lemma {:induction false} NamesHaveLength(fields: seq<Field>, pos: Position)
    requires At(fields, pos).Some?
    ensures |NamesAt(fields, pos)| == |pos|
    decreases |pos|
  {
    if |pos| > 1 {
      NamesHaveLength(ChildrenOf(fields[pos[0]]), pos[1..]);
    }
  }

  /** `columns.FieldIndices(name)`, when it has one element. */
  method IndexOf(fields: seq<Field>, name: string) returns (index: int)
    ensures index >= 0 ==> Only(fields, index, name)
    ensures index < 0 ==> forall i :: 0 <= i < |fields| ==> !Only(fields, i, name)
  {
    var found := -1;
    for i := 0 to |fields|
      invariant -1 <= found < i
      invariant found >= 0 ==> fields[found].name == name
      invariant forall j :: 0 <= j < i && fields[j].name == name ==> j == found
    {
      if fields[i].name == name {
        if found >= 0 {
          assert fields[found].name == fields[i].name == name && found != i;
          return -1;
        }
        found := i;
      }
    }
    return found;
  }

  /** The tail of the loop over a path's remaining components. */
  lemma ResolvesThrough(fields: seq<Field>, i: nat, path: seq<string>)
    requires |path| > 0 && Only(fields, i, path[0])
    ensures Resolves(fields, path) <==> |path| == 1 || Resolves(ChildrenOf(fields[i]), path[1..])
  {
  }

  /** vgi/constraint_records.go, `resolveNotNullPath`. */
  method ResolveNotNullPath(fields: seq<Field>, rowId: int, path: seq<string>) returns (ok: bool)
    requires path != []
    ensures ok <==> Resolves(fields, path) && !(0 <= rowId < |fields| && fields[rowId].name == path[0])
  {
    var index := IndexOf(fields, path[0]);
    if index < 0 {
      return false;
    }
    if index == rowId {
      return false;
    }
    assert Only(fields, index, path[0]);
    ResolvesThrough(fields, index, path);
    var field := fields[index];
    for k := 1 to |path|
      invariant Resolves(fields, path) <==> k == |path| || Resolves(ChildrenOf(field), path[k..])
    {
      var children := ChildrenOf(field);
      var found := IndexOf(children, path[k]);
      if found < 0 {
        assert path[k..][0] == path[k];
        return false;
      }
      ResolvesThrough(children, found, path[k..]);
      assert path[k..][1..] == path[k + 1..];
      field := children[found];
    }
    return true;
  }
}
