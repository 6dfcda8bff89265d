/**
  Loading a config (internal/config): the walk that rejects literal secrets and the walk that expands
  environment references in place. The tree's shape is a value; its string fields are cells of one
  mutable array, so that expansion overwrites them as the reflective walk does.
 */
module ConfigLoad {
  import opened Util
  import opened EnvExpansion

  /** A config value: `Str` names the cell that holds the text. */
  datatype Value =
    | Str(cell: nat) | Nil | Ptr(to: Value) | Slice(items: seq<Value>) | Struct(fields: seq<Field>) | Other

  /** A struct field with its YAML key; `required` is the env:"required" tag. */
  datatype Field = Field(key: string, required: bool, value: Value)

  // ----- cells of a tree -----

  function Cells(v: Value): seq<nat>
    decreases v, 1
  {
    match v
    case Str(cell) => [cell]
    case Nil => []
    case Other => []
    case Ptr(to) => Cells(to)
    case Slice(items) => ItemCells(items)
    case Struct(fields) => FieldCells(fields)
  }

  function ItemCells(items: seq<Value>): seq<nat>
    decreases items, 0
  {
    if items == [] then [] else Cells(items[0]) + ItemCells(items[1..])
  }

  function FieldCells(fields: seq<Field>): seq<nat>
    decreases fields, 0
  {
    if fields == [] then [] else Cells(fields[0].value) + FieldCells(fields[1..])
  }

  ghost predicate InBounds(cells: seq<nat>, n: nat) {
    forall k :: 0 <= k < |cells| ==> cells[k] < n
  }

  /** No cell is reachable along two paths. */
  ghost predicate Distinct(cells: seq<nat>) {
    forall i, j :: 0 <= i < j < |cells| ==> cells[i] != cells[j]
  }

  // ----- the secret check -----

  /** A secret field: where it is, and the cell that holds it. */
  datatype Secret = Secret(path: string, cell: nat)

  function ChildPath(parent: string, child: string): string {
    if parent == "" then child else parent + "." + child
  }

  function ItemPath(path: string, i: nat): string { path + "[" + Decimal(i) + "]" }

  /** The secret fields in the order the walk meets them. */
  function Secrets(v: Value, path: string): seq<Secret>
    decreases v, 1
  {
    match v
    case Str(_) => []
    case Nil => []
    case Other => []
    case Ptr(to) => Secrets(to, path)
    case Slice(items) => ItemSecrets(items, path, 0)
    case Struct(fields) => FieldSecrets(fields, path)
  }

  function ItemSecrets(items: seq<Value>, path: string, i: nat): seq<Secret>
    decreases items, 0
  {
    if items == [] then [] else Secrets(items[0], ItemPath(path, i)) + ItemSecrets(items[1..], path, i + 1)
  }

  function FieldSecrets(fields: seq<Field>, path: string): seq<Secret>
    decreases fields, 0
  {
    if fields == [] then [] else OneField(fields[0], path) + FieldSecrets(fields[1..], path)
  }

  function OneField(f: Field, path: string): seq<Secret>
    decreases f, 2
  {
    var child := ChildPath(path, f.key);
    if f.required && f.value.Str? then [Secret(child, f.value.cell)] else Secrets(f.value, child)
  }

  /** A secret may be empty or one reference, nothing else. */
  predicate IsAcceptable(value: string) { value == "" || IsRefOnly(value) }

  /** The paths the checker complains about. */
  function Complaints(secrets: seq<Secret>, text: seq<string>): seq<string>
    requires forall k :: 0 <= k < |secrets| ==> secrets[k].cell < |text|
  {
    if secrets == [] then []
    else Complaint(secrets[0], text) + Complaints(secrets[1..], text)
  }

  function Complaint(s: Secret, text: seq<string>): seq<string>
    requires s.cell < |text|
  {
    if IsAcceptable(text[s.cell]) then [] else [s.path]
  }

  lemma {:induction false} ComplaintsConcat(a: seq<Secret>, b: seq<Secret>, text: seq<string>)
    requires forall k :: 0 <= k < |a| ==> a[k].cell < |text|
    requires forall k :: 0 <= k < |b| ==> b[k].cell < |text|
    ensures Complaints(a + b, text) == Complaints(a, text) + Complaints(b, text)
  {
    if a == [] {
      assert a + b == b;
    } else {
      assert (a + b)[0] == a[0] && (a + b)[1..] == a[1..] + b;
      ComplaintsConcat(a[1..], b, text);
      Regroup(Complaint(a[0], text), Complaints(a[1..], text), Complaints(b, text));
    }
  }

  ghost predicate SecretsWithin(secrets: seq<Secret>, cells: seq<nat>) {
    forall k :: 0 <= k < |secrets| ==> secrets[k].cell in cells
  }

  lemma SecretsWithinConcat(a: seq<Secret>, b: seq<Secret>, c: seq<nat>, d: seq<nat>)
    requires SecretsWithin(a, c) && SecretsWithin(b, d)
    ensures SecretsWithin(a + b, c + d)
  {
    forall k | 0 <= k < |a + b| ensures (a + b)[k].cell in c + d {
      if k < |a| { assert a[k].cell in c; } else { assert b[k - |a|].cell in d; }
    }
  }

  /** Every secret is one of the tree's cells. */
  lemma {:induction false} SecretsAreCells(v: Value, path: string)
    ensures SecretsWithin(Secrets(v, path), Cells(v))
    decreases v, 1
  {
    match v
    case Str(_) =>
    case Nil =>
    case Other =>
    case Ptr(to) => SecretsAreCells(to, path);
    case Slice(items) => ItemSecretsAreCells(items, path, 0);
    case Struct(fields) => FieldSecretsAreCells(fields, path);
  }

  lemma {:induction false} ItemSecretsAreCells(items: seq<Value>, path: string, i: nat)
    ensures SecretsWithin(ItemSecrets(items, path, i), ItemCells(items))
    decreases items, 0
  {
    if items != [] {
      SecretsAreCells(items[0], ItemPath(path, i));
      ItemSecretsAreCells(items[1..], path, i + 1);
      SecretsWithinConcat(Secrets(items[0], ItemPath(path, i)), ItemSecrets(items[1..], path, i + 1),
                          Cells(items[0]), ItemCells(items[1..]));
    }
  }

  lemma {:induction false} FieldSecretsAreCells(fields: seq<Field>, path: string)
    ensures SecretsWithin(FieldSecrets(fields, path), FieldCells(fields))
    decreases fields, 0
  {
    if fields != [] {
      var f := fields[0];
      if !(f.required && f.value.Str?) { SecretsAreCells(f.value, ChildPath(path, f.key)); }
      FieldSecretsAreCells(fields[1..], path);
      SecretsWithinConcat(OneField(f, path), FieldSecrets(fields[1..], path), Cells(f.value), FieldCells(fields[1..]));
    }
  }

  /** The list of errors that the walk appends to. */
  class ErrorList {
    var items: seq<string>

    constructor ()
      ensures items == []
    {
      items := [];
    }

    method Append(path: string)
      modifies this
      ensures items == old(items) + [path]
    {
      items := items + [path];
    }
  }

  ghost predicate SecretsInBounds(secrets: seq<Secret>, n: nat) {
    forall k :: 0 <= k < |secrets| ==> secrets[k].cell < n
  }

  /** checkSecretField. */
  method CheckSecretField(s: Secret, text: array<string>, errs: ErrorList)
    requires s.cell < text.Length
    modifies errs
    ensures errs.items == old(errs.items) + Complaints([s], text[..])
  {
    assert [s][1..] == [];
    if !IsAcceptable(text[s.cell]) {
      errs.Append(s.path);
    }
  }

  lemma SecretsSplit(a: seq<Secret>, b: seq<Secret>, n: nat)
    requires SecretsInBounds(a + b, n)
    ensures SecretsInBounds(a, n) && SecretsInBounds(b, n)
  {
    assert forall k :: 0 <= k < |a| ==> (a + b)[k] == a[k];
    assert forall k :: 0 <= k < |b| ==> (a + b)[|a| + k] == b[k];
  }

  /** walkSecretFields: depth first, in field order, appending one error per bad secret. */
  method WalkSecretFields(v: Value, path: string, text: array<string>, errs: ErrorList)
    requires SecretsInBounds(Secrets(v, path), text.Length)
    modifies errs
    ensures errs.items == old(errs.items) + Complaints(Secrets(v, path), text[..])
    decreases v, 1
  {
    match v
    case Str(_) =>
    case Nil =>
    case Other =>
    case Ptr(to) => WalkSecretFields(to, path, text, errs);
    case Slice(items) => WalkItems(items, path, 0, text, errs);
    case Struct(fields) => WalkFields(fields, path, text, errs);
  }

  method WalkItems(items: seq<Value>, path: string, i: nat, text: array<string>, errs: ErrorList)
    requires SecretsInBounds(ItemSecrets(items, path, i), text.Length)
    modifies errs
    ensures errs.items == old(errs.items) + Complaints(ItemSecrets(items, path, i), text[..])
    decreases items, 0
  {
    if items != [] {
      ghost var a, b := Secrets(items[0], ItemPath(path, i)), ItemSecrets(items[1..], path, i + 1);
      SecretsSplit(a, b, text.Length);
      WalkSecretFields(items[0], ItemPath(path, i), text, errs);
      WalkItems(items[1..], path, i + 1, text, errs);
      ComplaintsConcat(a, b, text[..]);
      Regroup(old(errs.items), Complaints(a, text[..]), Complaints(b, text[..]));
    }
  }

  method WalkFields(fields: seq<Field>, path: string, text: array<string>, errs: ErrorList)
    requires SecretsInBounds(FieldSecrets(fields, path), text.Length)
    modifies errs
    ensures errs.items == old(errs.items) + Complaints(FieldSecrets(fields, path), text[..])
    decreases fields, 0
  {
    if fields != [] {
      var f, child := fields[0], ChildPath(path, fields[0].key);
      ghost var a, b := OneField(f, path), FieldSecrets(fields[1..], path);
      SecretsSplit(a, b, text.Length);
      if f.required && f.value.Str? {
        assert a == [Secret(child, f.value.cell)] && a[0].cell < text.Length;
        CheckSecretField(Secret(child, f.value.cell), text, errs);
      } else {
        WalkSecretFields(f.value, child, text, errs);
      }
      WalkFields(fields[1..], path, text, errs);
      ComplaintsConcat(a, b, text[..]);
      Regroup(old(errs.items), Complaints(a, text[..]), Complaints(b, text[..]));
    }
  }

  // ----- routes through a tree -----

  /** One step down a tree. */
  datatype Hop = Deref | At(i: nat) | Get(i: nat)

  /** A string field at the end of a route: its path, its cell, and whether it is a struct field tagged as required. */
  datatype Leaf = Leaf(path: string, cell: nat, secret: bool)

  /** The string field at the end of a route, if the route leads to one. `tagged` is the tag of the field that `v` is. */
  function LeafAt(v: Value, path: string, tagged: bool, route: seq<Hop>): Option<Leaf>
    decreases |route|
  {
    if route == [] then (if v.Str? then Some(Leaf(path, v.cell, tagged)) else None)
    else match (v, route[0])
    case (Ptr(to), Deref) => LeafAt(to, path, false, route[1..])
    case (Slice(items), At(i)) =>
      if i < |items| then LeafAt(items[i], path + "[" + Decimal(i) + "]", false, route[1..]) else None
    case (Struct(fields), Get(i)) =>
      if i < |fields| then
        LeafAt(fields[i].value, if path == "" then fields[i].key else path + "." + fields[i].key, fields[i].required, route[1..])
      else None
    case _ => None
  }

  /** The string field that a route leads to from the top. */
  function FieldAt(v: Value, route: seq<Hop>): Option<Leaf> { LeafAt(v, "", false, route) }

  predicate HopBefore(a: Hop, b: Hop) {
    match (a, b)
    case (At(i), At(j)) => i < j
    case (Get(i), Get(j)) => i < j
    case _ => false
  }

  /** The walk comes to the end of route `a` before that of route `b`. */
  predicate Before(a: seq<Hop>, b: seq<Hop>)
    decreases |a|
  {
    a != [] && b != [] && (HopBefore(a[0], b[0]) || (a[0] == b[0] && Before(a[1..], b[1..])))
  }

  ghost predicate Ordered(routes: seq<seq<Hop>>) {
    forall k, l :: 0 <= k < l < |routes| ==> Before(routes[k], routes[l])
  }

  /** The routes to the string fields in walk order, for the proofs. */
  function Tour(v: Value): seq<seq<Hop>>
    decreases v, 1
  {
    match v
    case Str(_) => [[]]
    case Nil => []
    case Other => []
    case Ptr(to) => Via(Deref, Tour(to))
    case Slice(items) => ItemTour(items, 0)
    case Struct(fields) => FieldTour(fields, 0)
  }

  function Via(h: Hop, routes: seq<seq<Hop>>): seq<seq<Hop>> {
    if routes == [] then [] else [[h] + routes[0]] + Via(h, routes[1..])
  }

  function ItemTour(items: seq<Value>, i: nat): seq<seq<Hop>>
    decreases items, 0
  {
    if items == [] then [] else Via(At(i), Tour(items[0])) + ItemTour(items[1..], i + 1)
  }

  function FieldTour(fields: seq<Field>, i: nat): seq<seq<Hop>>
    decreases fields, 0
  {
    if fields == [] then [] else Via(Get(i), Tour(fields[0].value)) + FieldTour(fields[1..], i + 1)
  }

  lemma {:induction false} ViaIs(h: Hop, routes: seq<seq<Hop>>)
    ensures |Via(h, routes)| == |routes|
    ensures forall k :: 0 <= k < |routes| ==> Via(h, routes)[k] == [h] + routes[k]
  {
    if routes != [] { ViaIs(h, routes[1..]); }
  }

  lemma ViaOrdered(h: Hop, routes: seq<seq<Hop>>)
    requires Ordered(routes)
    ensures Ordered(Via(h, routes))
  {
    ViaIs(h, routes);
    var all := Via(h, routes);
    forall k, l | 0 <= k < l < |all| ensures Before(all[k], all[l]) {
      assert Before(routes[k], routes[l]) && all[k][1..] == routes[k] && all[l][1..] == routes[l];
    }
  }

  lemma OrderedConcat(a: seq<seq<Hop>>, b: seq<seq<Hop>>)
    requires Ordered(a) && Ordered(b) && forall x, y :: x in a && y in b ==> Before(x, y)
    ensures Ordered(a + b)
  {
    var all := a + b;
    forall k, l | 0 <= k < l < |all| ensures Before(all[k], all[l]) {
      if l < |a| {
        assert Before(a[k], a[l]);
      } else if k >= |a| {
        assert Before(b[k - |a|], b[l - |a|]);
      } else {
        assert a[k] in a && b[l - |a|] in b;
      }
    }
  }

  /** The tour is in order. */
  lemma {:induction false} TourOrdered(v: Value)
    ensures Ordered(Tour(v))
    decreases v, 1
  {
    match v
    case Str(_) =>
    case Nil =>
    case Other =>
    case Ptr(to) =>
      TourOrdered(to);
      ViaOrdered(Deref, Tour(to));
    case Slice(items) => ItemTourOrdered(items, 0);
    case Struct(fields) => FieldTourOrdered(fields, 0);
  }

  lemma {:induction false} ItemTourOrdered(items: seq<Value>, i: nat)
    ensures Ordered(ItemTour(items, i))
    ensures forall r: seq<Hop> :: r in ItemTour(items, i) ==> r != [] && r[0].At? && r[0].i >= i
    decreases items, 0
  {
    if items != [] {
      var a, b := Via(At(i), Tour(items[0])), ItemTour(items[1..], i + 1);
      TourOrdered(items[0]);
      ViaOrdered(At(i), Tour(items[0]));
      ViaIs(At(i), Tour(items[0]));
      ItemTourOrdered(items[1..], i + 1);
      OrderedConcat(a, b);
    }
  }

  lemma {:induction false} FieldTourOrdered(fields: seq<Field>, i: nat)
    ensures Ordered(FieldTour(fields, i))
    ensures forall r: seq<Hop> :: r in FieldTour(fields, i) ==> r != [] && r[0].Get? && r[0].i >= i
    decreases fields, 0
  {
    if fields != [] {
      var a, b := Via(Get(i), Tour(fields[0].value)), FieldTour(fields[1..], i + 1);
      TourOrdered(fields[0].value);
      ViaOrdered(Get(i), Tour(fields[0].value));
      ViaIs(Get(i), Tour(fields[0].value));
      FieldTourOrdered(fields[1..], i + 1);
      OrderedConcat(a, b);
    }
  }

  lemma ViaHas(h: Hop, routes: seq<seq<Hop>>, r: seq<Hop>)
    ensures r in Via(h, routes) <==> r != [] && r[0] == h && r[1..] in routes
  {
    ViaIs(h, routes);
    if r in Via(h, routes) {
      var k :| 0 <= k < |routes| && Via(h, routes)[k] == r;
      assert r[1..] == routes[k];
    }
    if r != [] && r[0] == h && r[1..] in routes {
      var k :| 0 <= k < |routes| && routes[k] == r[1..];
      assert r == [h] + routes[k];
      assert Via(h, routes)[k] == r;
    }
  }

  /** The tour has exactly the routes that lead to a string field. */
  lemma {:induction false} TourComplete(v: Value, path: string, tagged: bool, r: seq<Hop>)
    ensures r in Tour(v) <==> LeafAt(v, path, tagged, r).Some?
    decreases v, 1
  {
    match v
    case Str(_) =>
    case Nil =>
    case Other =>
    case Ptr(to) =>
      ViaHas(Deref, Tour(to), r);
      if r != [] { TourComplete(to, path, false, r[1..]); }
    case Slice(items) =>
      ItemTourHas(items, 0, r);
      if r != [] && r[0].At? && r[0].i < |items| { ItemComplete(v, path, r); }
    case Struct(fields) =>
      FieldTourHas(fields, 0, r);
      if r != [] && r[0].Get? && r[0].i < |fields| { FieldComplete(v, path, r); }
  }

  lemma {:induction false} ItemComplete(v: Value, path: string, r: seq<Hop>)
    requires v.Slice? && r != [] && r[0].At? && r[0].i < |v.items|
    ensures r[1..] in Tour(v.items[r[0].i]) <==> LeafAt(v, path, false, r).Some?
    decreases v, 0
  {
    TourComplete(v.items[r[0].i], path + "[" + Decimal(r[0].i) + "]", false, r[1..]);
  }

  lemma {:induction false} FieldComplete(v: Value, path: string, r: seq<Hop>)
    requires v.Struct? && r != [] && r[0].Get? && r[0].i < |v.fields|
    ensures r[1..] in Tour(v.fields[r[0].i].value) <==> LeafAt(v, path, false, r).Some?
    decreases v, 0
  {
    var f := v.fields[r[0].i];
    TourComplete(f.value, if path == "" then f.key else path + "." + f.key, f.required, r[1..]);
  }

  lemma {:induction false} ItemTourHas(items: seq<Value>, i: nat, r: seq<Hop>)
    ensures r in ItemTour(items, i)
            <==> r != [] && r[0].At? && i <= r[0].i < i + |items| && r[1..] in Tour(items[r[0].i - i])
    decreases |items|
  {
    if items != [] {
      var tail := items[1..];
      ViaHas(At(i), Tour(items[0]), r);
      ItemTourHas(tail, i + 1, r);
      InConcat(Via(At(i), Tour(items[0])), ItemTour(tail, i + 1), r);
      if r != [] && r[0].At? && i < r[0].i < i + |items| { assert tail[r[0].i - i - 1] == items[r[0].i - i]; }
    }
  }

  lemma InConcat<T>(a: seq<T>, b: seq<T>, x: T)
    ensures x in a + b <==> x in a || x in b
  {
  }

  lemma {:induction false} FieldTourHas(fields: seq<Field>, i: nat, r: seq<Hop>)
    ensures r in FieldTour(fields, i)
            <==> r != [] && r[0].Get? && i <= r[0].i < i + |fields| && r[1..] in Tour(fields[r[0].i - i].value)
    decreases |fields|
  {
    if fields != [] {
      var tail := fields[1..];
      ViaHas(Get(i), Tour(fields[0].value), r);
      FieldTourHas(tail, i + 1, r);
      InConcat(Via(Get(i), Tour(fields[0].value)), FieldTour(tail, i + 1), r);
      if r != [] && r[0].Get? && i < r[0].i < i + |fields| { assert tail[r[0].i - i - 1] == fields[r[0].i - i]; }
    }
  }

  // ----- what the walks meet along the tour -----

  function LeafOr(leaf: Option<Leaf>): seq<Leaf> { if leaf.Some? then [leaf.value] else [] }

  /** The string fields at the ends of the routes. */
  function Leaves(v: Value, path: string, tagged: bool, routes: seq<seq<Hop>>): seq<Leaf> {
    if routes == [] then []
    else LeafOr(LeafAt(v, path, tagged, routes[0])) + Leaves(v, path, tagged, routes[1..])
  }

  function CellsOf(leaves: seq<Leaf>): seq<nat> {
    if leaves == [] then [] else [leaves[0].cell] + CellsOf(leaves[1..])
  }

  function SecretOr(leaf: Leaf): seq<Secret> { if leaf.secret then [Secret(leaf.path, leaf.cell)] else [] }

  function SecretsOf(leaves: seq<Leaf>): seq<Secret> {
    if leaves == [] then [] else SecretOr(leaves[0]) + SecretsOf(leaves[1..])
  }

  lemma LeavesCons(v: Value, path: string, tagged: bool, r: seq<Hop>, routes: seq<seq<Hop>>)
    ensures Leaves(v, path, tagged, [r] + routes) == LeafOr(LeafAt(v, path, tagged, r)) + Leaves(v, path, tagged, routes)
  {
    assert ([r] + routes)[1..] == routes;
  }

  lemma {:induction false} LeavesConcat(v: Value, path: string, tagged: bool, a: seq<seq<Hop>>, b: seq<seq<Hop>>)
    ensures Leaves(v, path, tagged, a + b) == Leaves(v, path, tagged, a) + Leaves(v, path, tagged, b)
  {
    if a == [] {
      assert a + b == b;
    } else {
      var r, tail := a[0], a[1..];
      assert a == [r] + tail;
      Regroup([r], tail, b);
      LeavesCons(v, path, tagged, r, tail + b);
      LeavesCons(v, path, tagged, r, tail);
      LeavesConcat(v, path, tagged, tail, b);
      Regroup(LeafOr(LeafAt(v, path, tagged, r)), Leaves(v, path, tagged, tail), Leaves(v, path, tagged, b));
    }
  }

  lemma {:induction false} LeavesVia(v: Value, path: string, tagged: bool, h: Hop, routes: seq<seq<Hop>>,
                                     to: Value, toPath: string, toTagged: bool)
    requires forall r: seq<Hop> :: LeafAt(v, path, tagged, [h] + r) == LeafAt(to, toPath, toTagged, r)
    ensures Leaves(v, path, tagged, Via(h, routes)) == Leaves(to, toPath, toTagged, routes)
  {
    if routes != [] {
      assert Via(h, routes)[0] == [h] + routes[0] && Via(h, routes)[1..] == Via(h, routes[1..]);
      LeavesVia(v, path, tagged, h, routes[1..], to, toPath, toTagged);
    }
  }

  lemma OfCons(leaf: Leaf, leaves: seq<Leaf>)
    ensures CellsOf([leaf] + leaves) == [leaf.cell] + CellsOf(leaves)
    ensures SecretsOf([leaf] + leaves) == SecretOr(leaf) + SecretsOf(leaves)
  {
    assert ([leaf] + leaves)[1..] == leaves;
  }

  lemma {:induction false} OfConcat(a: seq<Leaf>, b: seq<Leaf>)
    ensures CellsOf(a + b) == CellsOf(a) + CellsOf(b)
    ensures SecretsOf(a + b) == SecretsOf(a) + SecretsOf(b)
  {
    if a == [] {
      assert a + b == b;
    } else {
      var leaf, tail := a[0], a[1..];
      assert a == [leaf] + tail;
      Regroup([leaf], tail, b);
      OfCons(leaf, tail + b);
      OfCons(leaf, tail);
      OfConcat(tail, b);
      Regroup([leaf.cell], CellsOf(tail), CellsOf(b));
      Regroup(SecretOr(leaf), SecretsOf(tail), SecretsOf(b));
    }
  }

  /** What both walks make of the string fields, in tour order. */
  ghost predicate Meets(leaves: seq<Leaf>, cells: seq<nat>, secrets: seq<Secret>) {
    CellsOf(leaves) == cells && SecretsOf(leaves) == secrets
  }

  lemma MeetsConcat(a: seq<Leaf>, b: seq<Leaf>, c: seq<nat>, d: seq<nat>, e: seq<Secret>, f: seq<Secret>)
    requires Meets(a, c, e) && Meets(b, d, f)
    ensures Meets(a + b, c + d, e + f)
  {
    OfConcat(a, b);
  }

  /** The expansion passes all string fields, and the secret check those tagged as required. */
  lemma {:induction false} WalksMeet(v: Value, path: string, tagged: bool)
    ensures Meets(Leaves(v, path, tagged, Tour(v)), Cells(v),
                  if v.Str? && tagged then [Secret(path, v.cell)] else Secrets(v, path))
    decreases v, 1
  {
    match v
    case Str(cell) => OneLeaf(v, path, tagged);
    case Nil =>
    case Other =>
    case Ptr(to) =>
      assert forall r: seq<Hop> :: ([Deref] + r)[1..] == r;
      LeavesVia(v, path, tagged, Deref, Tour(to), to, path, false);
      WalksMeet(to, path, false);
    case Slice(items) =>
      assert items[0..] == items;
      ItemsMeet(v, path, tagged, 0);
    case Struct(fields) =>
      assert fields[0..] == fields;
      FieldsMeet(v, path, tagged, 0);
  }

  lemma OneLeaf(v: Value, path: string, tagged: bool)
    requires v.Str?
    ensures Meets(Leaves(v, path, tagged, Tour(v)), Cells(v), if tagged then [Secret(path, v.cell)] else [])
  {
    var leaf := Leaf(path, v.cell, tagged);
    assert Tour(v)[1..] == [];
    assert Leaves(v, path, tagged, Tour(v)) == [leaf] + [] == [leaf];
    assert [leaf][1..] == [];
  }

  lemma {:induction false} ItemsMeet(v: Value, path: string, tagged: bool, i: nat)
    requires v.Slice? && i <= |v.items|
    ensures Meets(Leaves(v, path, tagged, ItemTour(v.items[i..], i)), ItemCells(v.items[i..]), ItemSecrets(v.items[i..], path, i))
    decreases v, 0, |v.items| - i
  {
    if i < |v.items| {
      var item, rest := v.items[i], v.items[i + 1..];
      assert v.items[i..][0] == item && v.items[i..][1..] == rest;
      assert forall r: seq<Hop> :: ([At(i)] + r)[1..] == r;
      LeavesVia(v, path, tagged, At(i), Tour(item), item, ItemPath(path, i), false);
      WalksMeet(item, ItemPath(path, i), false);
      ItemsMeet(v, path, tagged, i + 1);
      LeavesConcat(v, path, tagged, Via(At(i), Tour(item)), ItemTour(rest, i + 1));
      MeetsConcat(Leaves(v, path, tagged, Via(At(i), Tour(item))), Leaves(v, path, tagged, ItemTour(rest, i + 1)),
                  Cells(item), ItemCells(rest), Secrets(item, ItemPath(path, i)), ItemSecrets(rest, path, i + 1));
    }
  }

  lemma {:induction false} FieldsMeet(v: Value, path: string, tagged: bool, i: nat)
    requires v.Struct? && i <= |v.fields|
    ensures Meets(Leaves(v, path, tagged, FieldTour(v.fields[i..], i)), FieldCells(v.fields[i..]), FieldSecrets(v.fields[i..], path))
    decreases v, 0, |v.fields| - i
  {
    if i < |v.fields| {
      var f, rest := v.fields[i], v.fields[i + 1..];
      var child := ChildPath(path, f.key);
      assert v.fields[i..][0] == f && v.fields[i..][1..] == rest;
      assert forall r: seq<Hop> :: ([Get(i)] + r)[1..] == r;
      LeavesVia(v, path, tagged, Get(i), Tour(f.value), f.value, child, f.required);
      WalksMeet(f.value, child, f.required);
      FieldsMeet(v, path, tagged, i + 1);
      LeavesConcat(v, path, tagged, Via(Get(i), Tour(f.value)), FieldTour(rest, i + 1));
      MeetsConcat(Leaves(v, path, tagged, Via(Get(i), Tour(f.value))), Leaves(v, path, tagged, FieldTour(rest, i + 1)),
                  Cells(f.value), FieldCells(rest), OneField(f, path), FieldSecrets(rest, path));
    }
  }

  lemma {:induction false} LeavesAre(v: Value, routes: seq<seq<Hop>>)
    requires forall r :: r in routes ==> FieldAt(v, r).Some?
    ensures |Leaves(v, "", false, routes)| == |routes| == |CellsOf(Leaves(v, "", false, routes))|
    ensures forall k :: 0 <= k < |routes| ==>
              FieldAt(v, routes[k]).Some? && CellsOf(Leaves(v, "", false, routes))[k] == FieldAt(v, routes[k]).value.cell
  {
    if routes != [] {
      assert routes[0] in routes;
      LeavesAre(v, routes[1..]);
      var leaf := FieldAt(v, routes[0]).value;
      assert Leaves(v, "", false, routes)[1..] == Leaves(v, "", false, routes[1..]);
    }
  }

  /** The cells are those of the string fields that routes lead to, one for each route, in walk order. */
  lemma CellsAreFields(v: Value)
    ensures |Cells(v)| == |Tour(v)| && Ordered(Tour(v))
    ensures forall k :: 0 <= k < |Tour(v)| ==> FieldAt(v, Tour(v)[k]).Some? && FieldAt(v, Tour(v)[k]).value.cell == Cells(v)[k]
    ensures forall r :: r in Tour(v) <==> FieldAt(v, r).Some?
  {
    TourOrdered(v);
    WalksMeet(v, "", false);
    forall r ensures r in Tour(v) <==> FieldAt(v, r).Some? { TourComplete(v, "", false, r); }
    LeavesAre(v, Tour(v));
  }

  lemma {:induction false} BeforeIsStrict(a: seq<Hop>, b: seq<Hop>)
    requires Before(a, b)
    ensures !Before(b, a) && a != b
    decreases |a|
  {
    if a[0] == b[0] { BeforeIsStrict(a[1..], b[1..]); }
  }

  lemma Earlier(routes: seq<seq<Hop>>, j: nat, k: nat)
    requires Ordered(routes) && j < |routes| && k < |routes| && Before(routes[j], routes[k])
    ensures j < k
  {
    BeforeIsStrict(routes[j], routes[k]);
  }

  /** A tree of string fields: each has a cell of its own. */
  ghost predicate IsTree(v: Value, n: nat) {
    && (forall r :: FieldAt(v, r).Some? ==> FieldAt(v, r).value.cell < n)
    && (forall r, q :: FieldAt(v, r).Some? && FieldAt(v, q).Some? && FieldAt(v, r).value.cell == FieldAt(v, q).value.cell ==> r == q)
  }

  lemma TreeCells(v: Value, n: nat)
    requires IsTree(v, n)
    ensures InBounds(Cells(v), n) && Distinct(Cells(v))
  {
    CellsAreFields(v);
    var routes, cells := Tour(v), Cells(v);
    forall k | 0 <= k < |cells| ensures cells[k] < n { assert FieldAt(v, routes[k]).Some?; }
    forall k, l | 0 <= k < l < |cells| ensures cells[k] != cells[l] {
      assert Before(routes[k], routes[l]);
      BeforeIsStrict(routes[k], routes[l]);
      assert FieldAt(v, routes[k]).Some? && FieldAt(v, routes[l]).Some?;
    }
  }

  // ----- what the checker reports -----

  /** A single reference and nothing else. */
  ghost predicate IsReference(text: string) { exists name :: IsVarName(name) && text == "${" + name + "}" }

  /** The route leads to a secret field that holds something other than a single reference. */
  ghost predicate IsLiteral(v: Value, text: seq<string>, route: seq<Hop>) {
    && FieldAt(v, route).Some?
    && var leaf := FieldAt(v, route).value;
       leaf.secret && leaf.cell < |text| && text[leaf.cell] != "" && !IsReference(text[leaf.cell])
  }

  /** These are the paths of the secrets written as literals, each once, in walk order. */
  ghost predicate IsReport(v: Value, text: seq<string>, routes: seq<seq<Hop>>, paths: seq<string>) {
    && |routes| == |paths| && Ordered(routes)
    && (forall k :: 0 <= k < |routes| ==> IsLiteral(v, text, routes[k]) && paths[k] == FieldAt(v, routes[k]).value.path)
    && (forall r :: IsLiteral(v, text, r) ==> r in routes)
  }

  ghost function Literals(v: Value, text: seq<string>, routes: seq<seq<Hop>>): seq<seq<Hop>> {
    if routes == [] then []
    else (if IsLiteral(v, text, routes[0]) then [routes[0]] else []) + Literals(v, text, routes[1..])
  }

  lemma {:induction false} LiteralsAre(v: Value, text: seq<string>, routes: seq<seq<Hop>>)
    requires Ordered(routes)
    ensures forall r :: r in Literals(v, text, routes) <==> r in routes && IsLiteral(v, text, r)
    ensures Ordered(Literals(v, text, routes))
  {
    if routes != [] {
      var tail := routes[1..];
      assert forall k :: 0 <= k < |tail| ==> tail[k] == routes[k + 1];
      LiteralsAre(v, text, tail);
      if IsLiteral(v, text, routes[0]) { OrderedConcat([routes[0]], Literals(v, text, tail)); }
    }
  }

  /** The paths of the fields that the routes lead to. */
  ghost predicate ArePaths(v: Value, routes: seq<seq<Hop>>, paths: seq<string>) {
    |routes| == |paths|
    && forall k :: 0 <= k < |routes| ==> FieldAt(v, routes[k]).Some? && paths[k] == FieldAt(v, routes[k]).value.path
  }

  lemma ArePathsConcat(v: Value, a: seq<seq<Hop>>, b: seq<seq<Hop>>, c: seq<string>, d: seq<string>)
    requires ArePaths(v, a, c) && ArePaths(v, b, d)
    ensures ArePaths(v, a + b, c + d)
  {
  }

  lemma {:induction false} ComplaintsAre(v: Value, text: seq<string>, routes: seq<seq<Hop>>)
    requires SecretsInBounds(SecretsOf(Leaves(v, "", false, routes)), |text|)
    requires forall r :: r in routes ==> FieldAt(v, r).Some?
    ensures ArePaths(v, Literals(v, text, routes), Complaints(SecretsOf(Leaves(v, "", false, routes)), text))
  {
    if routes != [] {
      var r, tail := routes[0], routes[1..];
      assert r in routes && routes == [r] + tail;
      var leaf, rest := FieldAt(v, r).value, Leaves(v, "", false, tail);
      LeavesCons(v, "", false, r, tail);
      OfCons(leaf, rest);
      SecretsSplit(SecretOr(leaf), SecretsOf(rest), |text|);
      ComplaintsConcat(SecretOr(leaf), SecretsOf(rest), text);
      ComplaintsAre(v, text, tail);
      OneComplaint(v, text, r);
      ArePathsConcat(v, if IsLiteral(v, text, r) then [r] else [], Literals(v, text, tail),
                     Complaints(SecretOr(leaf), text), Complaints(SecretsOf(rest), text));
    }
  }

  lemma OneComplaint(v: Value, text: seq<string>, r: seq<Hop>)
    requires FieldAt(v, r).Some? && SecretsInBounds(SecretOr(FieldAt(v, r).value), |text|)
    ensures Complaints(SecretOr(FieldAt(v, r).value), text) == if IsLiteral(v, text, r) then [FieldAt(v, r).value.path] else []
  {
    var leaf := FieldAt(v, r).value;
    if leaf.secret {
      var first := SecretOr(leaf);
      assert first[0].cell == leaf.cell < |text| && first[1..] == [];
      RefOnlyIff(text[leaf.cell]);
    }
  }

  /**
    The checker reports the paths of exactly the secret fields that routes lead to and whose value is neither
    empty nor a single reference, each once and in walk order.
   */
  lemma Reported(v: Value, text: seq<string>) returns (routes: seq<seq<Hop>>)
    requires SecretsInBounds(Secrets(v, ""), |text|)
    ensures IsReport(v, text, routes, Complaints(Secrets(v, ""), text))
  {
    routes := Literals(v, text, Tour(v));
    SecretsAreFields(v);
    CellsAreFields(v);
    LiteralsAre(v, text, Tour(v));
    ComplaintsAre(v, text, Tour(v));
    assert forall k :: 0 <= k < |routes| ==> routes[k] in routes;
  }

  lemma SecretsAreFields(v: Value)
    ensures SecretsOf(Leaves(v, "", false, Tour(v))) == Secrets(v, "")
  {
    WalksMeet(v, "", false);
  }

  // ----- expansion in place -----

  /** The text after expanding cells in order, stopping at the first that fails. */
  datatype Expanding = Expanding(text: seq<string>, unset: seq<string>)

  function ExpandCells(cells: seq<nat>, text: seq<string>, env: Env): (r: Expanding)
    requires InBounds(cells, |text|)
    ensures |r.text| == |text|
    decreases |cells|
  {
    if cells == [] then Expanding(text, [])
    else
      assert InBounds(cells[1..], |text|);
      match Expand(text[cells[0]], env)
      case Unset(names) => Expanding(text, names)
      case Expanded(t) => ExpandCells(cells[1..], text[cells[0] := t], env)
  }

  lemma UnsetNames(s: string, env: Env)
    ensures Expand(s, env).Unset? ==> Expand(s, env).names != []
  {
  }

  lemma {:induction false} ExpandCellsConcat(a: seq<nat>, b: seq<nat>, text: seq<string>, env: Env)
    requires InBounds(a, |text|) && InBounds(b, |text|)
    ensures InBounds(a + b, |text|)
    ensures var r := ExpandCells(a, text, env);
            ExpandCells(a + b, text, env) == if r.unset != [] then r else ExpandCells(b, r.text, env)
    decreases |a|
  {
    if a == [] {
      assert a + b == b;
    } else {
      assert (a + b)[0] == a[0] && (a + b)[1..] == a[1..] + b;
      assert InBounds(a[1..], |text|);
      UnsetNames(text[a[0]], env);
      match Expand(text[a[0]], env)
      case Unset(_) =>
      case Expanded(t) => ExpandCellsConcat(a[1..], b, text[a[0] := t], env);
    }
  }

  lemma InBoundsSplit(a: seq<nat>, b: seq<nat>, n: nat)
    requires InBounds(a + b, n)
    ensures InBounds(a, n) && InBounds(b, n)
  {
    assert forall k :: 0 <= k < |a| ==> (a + b)[k] == a[k];
    assert forall k :: 0 <= k < |b| ==> (a + b)[|a| + k] == b[k];
  }

  /** resolveEnv: string cells are overwritten as the walk passes them; the first failure ends it. */
  method ResolveEnv(v: Value, text: array<string>, env: Env) returns (unset: seq<string>)
    requires InBounds(Cells(v), text.Length)
    modifies text
    ensures Expanding(text[..], unset) == ExpandCells(Cells(v), old(text[..]), env)
    decreases v, 1
  {
    unset := [];
    match v
    case Str(cell) =>
      assert [cell][1..] == [] && Cells(v)[0] == cell;
      var e := ExpandEnvString(text[cell], env);
      if e.Unset? {
        unset := e.names;
      } else {
        text[cell] := e.text;
        assert text[..] == old(text[..])[cell := e.text];
      }
    case Nil =>
    case Other =>
    case Ptr(to) => unset := ResolveEnv(to, text, env);
    case Slice(items) => unset := ResolveItems(items, text, env);
    case Struct(fields) => unset := ResolveFields(fields, text, env);
  }

  method ResolveItems(items: seq<Value>, text: array<string>, env: Env) returns (unset: seq<string>)
    requires InBounds(ItemCells(items), text.Length)
    modifies text
    ensures Expanding(text[..], unset) == ExpandCells(ItemCells(items), old(text[..]), env)
    decreases items, 0
  {
    unset := [];
    if items != [] {
      InBoundsSplit(Cells(items[0]), ItemCells(items[1..]), text.Length);
      ExpandCellsConcat(Cells(items[0]), ItemCells(items[1..]), text[..], env);
      unset := ResolveEnv(items[0], text, env);
      if unset == [] {
        unset := ResolveItems(items[1..], text, env);
      }
    }
  }

  method ResolveFields(fields: seq<Field>, text: array<string>, env: Env) returns (unset: seq<string>)
    requires InBounds(FieldCells(fields), text.Length)
    modifies text
    ensures Expanding(text[..], unset) == ExpandCells(FieldCells(fields), old(text[..]), env)
    decreases fields, 0
  {
    unset := [];
    if fields != [] {
      InBoundsSplit(Cells(fields[0].value), FieldCells(fields[1..]), text.Length);
      ExpandCellsConcat(Cells(fields[0].value), FieldCells(fields[1..]), text[..], env);
      unset := ResolveEnv(fields[0].value, text, env);
      if unset == [] {
        unset := ResolveFields(fields[1..], text, env);
      }
    }
  }

  ghost predicate AllExpand(cells: seq<nat>, text: seq<string>, env: Env)
    requires InBounds(cells, |text|)
  {
    forall k :: 0 <= k < |cells| ==> Expand(text[cells[k]], env).Expanded?
  }

  /** Each cell holds the expansion of what it held before. */
  ghost predicate HoldExpansions(cells: seq<nat>, text: seq<string>, after: seq<string>, env: Env)
    requires InBounds(cells, |text|) && |after| == |text|
  {
    forall k :: 0 <= k < |cells| ==> Expanded(after[cells[k]]) == Expand(text[cells[k]], env)
  }

  /** Cells outside the list keep their text, whether or not the expansion succeeds. */
  lemma {:induction false} ExpandCellsFrame(cells: seq<nat>, text: seq<string>, env: Env, c: nat)
    requires InBounds(cells, |text|) && c < |text| && c !in cells
    ensures ExpandCells(cells, text, env).text[c] == text[c]
    decreases |cells|
  {
    if cells != [] && Expand(text[cells[0]], env).Expanded? {
      assert InBounds(cells[1..], |text|) && c != cells[0];
      ExpandCellsFrame(cells[1..], text[cells[0] := Expand(text[cells[0]], env).text], env, c);
    }
  }

  lemma AllExpandCons(c: nat, tail: seq<nat>, text: seq<string>, t: string, env: Env)
    requires c < |text| && InBounds(tail, |text|) && InBounds([c] + tail, |text|) && c !in tail
    ensures AllExpand([c] + tail, text, env) <==> Expand(text[c], env).Expanded? && AllExpand(tail, text[c := t], env)
  {
    var cells, next := [c] + tail, text[c := t];
    assert cells[0] == c;
    assert forall k :: 0 <= k < |tail| ==> tail[k] == cells[k + 1] && next[tail[k]] == text[tail[k]];
    assert forall k :: 1 <= k < |cells| ==> cells[k] == tail[k - 1];
  }

  lemma HoldExpansionsCons(c: nat, tail: seq<nat>, text: seq<string>, t: string, after: seq<string>, env: Env)
    requires c < |text| == |after| && InBounds(tail, |text|) && InBounds([c] + tail, |text|) && c !in tail
    requires Expand(text[c], env) == Expanded(t) && after[c] == t && HoldExpansions(tail, text[c := t], after, env)
    ensures HoldExpansions([c] + tail, text, after, env)
  {
    var cells, next := [c] + tail, text[c := t];
    assert forall k :: 1 <= k < |cells| ==> cells[k] == tail[k - 1] && next[tail[k - 1]] == text[tail[k - 1]];
  }

  /**
    In a tree without shared cells, expansion succeeds exactly when every cell expands, and then each
    cell holds its own text's expansion, done once.
   */
  lemma {:induction false} ExpandCellsMeaning(cells: seq<nat>, text: seq<string>, env: Env)
    requires InBounds(cells, |text|) && Distinct(cells)
    ensures var r := ExpandCells(cells, text, env);
            && (r.unset == [] <==> AllExpand(cells, text, env))
            && (r.unset == [] ==> HoldExpansions(cells, text, r.text, env))
    decreases |cells|
  {
    if cells != [] {
      var c, tail := cells[0], cells[1..];
      assert InBounds(tail, |text|) && c !in tail && Distinct(tail);
      assert cells == [c] + tail;
      UnsetNames(text[c], env);
      if Expand(text[c], env).Expanded? {
        var t := Expand(text[c], env).text;
        ExpandCellsMeaning(tail, text[c := t], env);
        ExpandCellsFrame(tail, text[c := t], env, c);
        AllExpandCons(c, tail, text, t, env);
        var r := ExpandCells(tail, text[c := t], env);
        if r.unset == [] { HoldExpansionsCons(c, tail, text, t, r.text, env); }
      }
    }
  }

  /** The cells before the k-th expand, and the k-th does not for want of `names`. */
  ghost predicate FailsAt(cells: seq<nat>, text: seq<string>, env: Env, names: seq<string>, k: nat)
    requires InBounds(cells, |text|)
  {
    k < |cells| && AllExpand(cells[..k], text, env) && Expand(text[cells[k]], env) == Unset(names)
  }

  ghost predicate FirstUnset(cells: seq<nat>, text: seq<string>, env: Env, names: seq<string>)
    requires InBounds(cells, |text|)
  {
    exists k :: FailsAt(cells, text, env, names, k)
  }

  lemma FailsLater(c: nat, tail: seq<nat>, text: seq<string>, t: string, env: Env, names: seq<string>, k: nat)
    requires c < |text| && InBounds(tail, |text|) && InBounds([c] + tail, |text|) && c !in tail
    requires Expand(text[c], env) == Expanded(t) && FailsAt(tail, text[c := t], env, names, k)
    ensures FailsAt([c] + tail, text, env, names, k + 1)
  {
    var cells, before := [c] + tail, tail[..k];
    assert cells[..k + 1] == [c] + before && c !in before;
    AllExpandCons(c, before, text, t, env);
    assert cells[k + 1] == tail[k] && tail[k] in tail && text[c := t][tail[k]] == text[tail[k]];
  }

  /** A failed expansion reports the missing variables of the first cell that does not expand. */
  lemma {:induction false} ReportsFirstUnset(cells: seq<nat>, text: seq<string>, env: Env)
    requires InBounds(cells, |text|) && Distinct(cells) && ExpandCells(cells, text, env).unset != []
    ensures FirstUnset(cells, text, env, ExpandCells(cells, text, env).unset)
    decreases |cells|
  {
    var c, tail := cells[0], cells[1..];
    assert InBounds(tail, |text|) && c !in tail && Distinct(tail);
    if Expand(text[c], env).Unset? {
      assert FailsAt(cells, text, env, Expand(text[c], env).names, 0);
    } else {
      var t := Expand(text[c], env).text;
      ReportsFirstUnset(tail, text[c := t], env);
      assert cells == [c] + tail;
      var names := ExpandCells(tail, text[c := t], env).unset;
      var k :| FailsAt(tail, text[c := t], env, names, k);
      FailsLater(c, tail, text, t, env, names, k);
    }
  }

  // ----- loading -----

  datatype LoadResult = Loaded | LiteralSecrets(paths: seq<string>) | UnsetVariables(names: seq<string>)

  /** The cell holds nothing, or one variable's non-empty value in place of a reference to it. */
  ghost predicate FromEnvironment(before: string, after: string, env: Env) {
    || (before == "" && after == "")
    || exists name :: IsVarName(name) && before == "${" + name + "}" && name in env && after == env[name] != ""
  }

  lemma AcceptableExpands(s: string, env: Env)
    requires IsAcceptable(s) && Expand(s, env).Expanded?
    ensures FromEnvironment(s, Expand(s, env).text, env)
  {
    if s == "" {
      assert Tokens("") == [];
    } else {
      RefOnlyExpands(s, env);
      assert "$" + "{" == "${";
      assert s == "${" + MatchRef(s).value + "}";
    }
  }

  /** After the expansion: what every string field held before is expanded. */
  ghost predicate AllExpanded(v: Value, before: seq<string>, after: seq<string>, env: Env) {
    forall r :: FieldAt(v, r).Some? ==>
      var cell := FieldAt(v, r).value.cell;
      cell < |before| == |after| && Expanded(after[cell]) == Expand(before[cell], env)
  }

  /** The string field at the route does not expand for want of `names`, and those that the walk passes before it do. */
  ghost predicate StopsAt(v: Value, before: seq<string>, env: Env, names: seq<string>, route: seq<Hop>) {
    && FieldAt(v, route).Some? && FieldAt(v, route).value.cell < |before|
    && Expand(before[FieldAt(v, route).value.cell], env) == Unset(names)
    && forall r :: FieldAt(v, r).Some? && Before(r, route) ==>
         FieldAt(v, r).value.cell < |before| && Expand(before[FieldAt(v, r).value.cell], env).Expanded?
  }

  lemma ExpansionsOfFields(v: Value, before: seq<string>, after: seq<string>, env: Env)
    requires InBounds(Cells(v), |before|) && |after| == |before| && HoldExpansions(Cells(v), before, after, env)
    ensures AllExpanded(v, before, after, env)
  {
    CellsAreFields(v);
    forall r | FieldAt(v, r).Some?
      ensures var cell := FieldAt(v, r).value.cell; cell < |before| && Expanded(after[cell]) == Expand(before[cell], env)
    {
      var k :| 0 <= k < |Tour(v)| && Tour(v)[k] == r;
      assert Cells(v)[k] == FieldAt(v, r).value.cell;
    }
  }

  lemma FirstOfFields(v: Value, before: seq<string>, env: Env, names: seq<string>) returns (route: seq<Hop>)
    requires InBounds(Cells(v), |before|) && FirstUnset(Cells(v), before, env, names)
    ensures StopsAt(v, before, env, names, route)
  {
    CellsAreFields(v);
    var cells, routes := Cells(v), Tour(v);
    var k: nat :| FailsAt(cells, before, env, names, k);
    route := routes[k];
    forall r | FieldAt(v, r).Some? && Before(r, route)
      ensures FieldAt(v, r).value.cell < |before| && Expand(before[FieldAt(v, r).value.cell], env).Expanded?
    {
      var j :| 0 <= j < |routes| && routes[j] == r;
      Earlier(routes, j, k);
      assert cells[..k][j] == cells[j] == FieldAt(v, r).value.cell;
    }
  }

  lemma SecretBounds(v: Value, n: nat)
    requires InBounds(Cells(v), n)
    ensures SecretsInBounds(Secrets(v, ""), n)
  {
    SecretsAreCells(v, "");
  }

  lemma ReportEmptyIff(v: Value, text: seq<string>, routes: seq<seq<Hop>>, paths: seq<string>)
    requires IsReport(v, text, routes, paths)
    ensures paths != [] <==> exists r :: IsLiteral(v, text, r)
  {
    if routes != [] { assert IsLiteral(v, text, routes[0]); }
  }

  /** After an accepted check and an expansion, every secret came from the environment. */
  lemma SecretsFromEnvironment(v: Value, before: seq<string>, after: seq<string>, env: Env)
    requires AllExpanded(v, before, after, env) && forall r :: !IsLiteral(v, before, r)
    ensures forall r :: FieldAt(v, r).Some? && FieldAt(v, r).value.secret ==>
              var cell := FieldAt(v, r).value.cell;
              cell < |before| == |after| && FromEnvironment(before[cell], after[cell], env)
  {
    forall r | FieldAt(v, r).Some? && FieldAt(v, r).value.secret
      ensures var cell := FieldAt(v, r).value.cell;
              cell < |before| == |after| && FromEnvironment(before[cell], after[cell], env)
    {
      var cell := FieldAt(v, r).value.cell;
      assert !IsLiteral(v, before, r);
      RefOnlyIff(before[cell]);
      AcceptableExpands(before[cell], env);
    }
  }

  /** The secret check: the paths it complains about, without a change to any field. */
  method CheckSecretsAreEnvRefs(v: Value, text: array<string>) returns (paths: seq<string>)
    requires IsTree(v, text.Length)
    ensures exists routes :: IsReport(v, text[..], routes, paths)
    ensures paths != [] <==> exists route :: IsLiteral(v, text[..], route)
  {
    TreeCells(v, text.Length);
    SecretBounds(v, text.Length);
    var errs := new ErrorList();
    WalkSecretFields(v, "", text, errs);
    paths := errs.items;
    ghost var routes := Reported(v, text[..]);
    assert [] + Complaints(Secrets(v, ""), text[..]) == Complaints(Secrets(v, ""), text[..]);
    ReportEmptyIff(v, text[..], routes, paths);
  }

  /** The expansion: of every string field, or up to the first that mentions a variable without a value. */
  method ResolveEnvInStruct(v: Value, text: array<string>, env: Env) returns (unset: seq<string>)
    requires IsTree(v, text.Length)
    modifies text
    ensures unset == [] ==> AllExpanded(v, old(text[..]), text[..], env)
    ensures unset != [] ==> exists route :: StopsAt(v, old(text[..]), env, unset, route)
  {
    ghost var before := text[..];
    TreeCells(v, text.Length);
    ExpandCellsMeaning(Cells(v), before, env);
    unset := ResolveEnv(v, text, env);
    if unset == [] {
      ExpansionsOfFields(v, before, text[..], env);
    } else {
      ReportsFirstUnset(Cells(v), before, env);
      ghost var route := FirstOfFields(v, before, env, unset);
    }
  }

  /**
    Load, from the decoded tree on: the secret check, which an override turns into warnings, then the
    expansion. Without the override a loaded config holds no secret that was written in the file; a
    rejected one is untouched. With unset variables it names those of the first string field that has any.
   */
  method Load(v: Value, text: array<string>, env: Env, allowLiteral: bool) returns (r: LoadResult)
    requires IsTree(v, text.Length)
    modifies text
    ensures r.LiteralSecrets? <==> !allowLiteral && exists route :: IsLiteral(v, old(text[..]), route)
    ensures r.LiteralSecrets? ==> text[..] == old(text[..]) && exists routes :: IsReport(v, old(text[..]), routes, r.paths)
    ensures r.Loaded? ==> AllExpanded(v, old(text[..]), text[..], env)
    ensures r.UnsetVariables? ==> exists route :: StopsAt(v, old(text[..]), env, r.names, route)
    ensures r.Loaded? && !allowLiteral ==> forall route :: FieldAt(v, route).Some? && FieldAt(v, route).value.secret ==>
              var cell := FieldAt(v, route).value.cell;
              cell < text.Length && FromEnvironment(old(text[..])[cell], text[cell], env)
  {
    ghost var before := text[..];
    var paths := CheckSecretsAreEnvRefs(v, text);
    if paths != [] && !allowLiteral {
      return LiteralSecrets(paths);
    }
    var unset := ResolveEnvInStruct(v, text, env);
    if unset != [] {
      return UnsetVariables(unset);
    }
    if !allowLiteral {
      SecretsFromEnvironment(v, before, text[..], env);
    }
    r := Loaded;
  }
}
