/** The document schema the copy engine works on: a root document with two
    nullable string fields and one ordered collection of embedded children,
    the per-document change set, and the supply of fresh identities. */
module Documents {
  import opened Wrappers

  /** A document identity (an ObjectId, abstracted to a number). */
  type Id = nat

  /** The source of fresh identities: every id below `next` may already be in
      use, every id from `next` on has never been handed out. */
  datatype IdSupply = IdSupply(next: nat)

  /** A value produced together with the identity supply left after it. */
  datatype Minted<T> = Minted(value: T, ids: IdSupply)

  /** Hands out one identity no earlier call has handed out. */
  function Mint(s: IdSupply): (r: Minted<Id>)
    ensures s.next <= r.value < r.ids.next
  {
    Minted(s.next, IdSupply(s.next + 1))
  }

  /** An embedded child: its identity and its one declared field. */
  datatype Child = Child(id: Id, childLabel: Option<string>)

  /** The scalar fields a root document declares. */
  datatype ScalarField = Name | Address

  /** Every field a root document declares: its identity, its scalar
      fields and its embedded collection `copyable_childs`. */
  datatype Field = Identity | Scalar(scalar: ScalarField) | Childs

  /** A root document. `changed` is its change set: the scalar fields
      assigned since the instance was built. */
  datatype Doc = Doc(
    id: Id,
    name: Option<string>,
    address: Option<string>,
    childs: seq<Child>,
    changed: set<ScalarField>)

  /** The declared fields, in declaration order. */
  const DeclaredFields: seq<Field> := [Identity, Scalar(Name), Scalar(Address), Childs]

  /** The name under which a field is declared. */
  function FieldName(f: Field): string
  {
    match f
    case Identity => "_id"
    case Scalar(Name) => "name"
    case Scalar(Address) => "address"
    case Childs => "copyable_childs"
  }

  /** Looks a field up by the name a caller passes; `None` for a name the
      schema does not declare. */
  function Resolve(name: string): (r: Option<Field>)
    ensures r.Some? ==> FieldName(r.value) == name
    ensures r.None? ==> forall f :: FieldName(f) != name
  {
    if name == "_id" then Some(Identity)
    else if name == "name" then Some(Scalar(Name))
    else if name == "address" then Some(Scalar(Address))
    else if name == "copyable_childs" then Some(Childs)
    else None
  }

  /** Every declared field is found again under its own name. */
  lemma ResolveFieldName(f: Field)
    ensures Resolve(FieldName(f)) == Some(f)
  {
  }

  /** Reads a scalar field. */
  function Get(d: Doc, f: ScalarField): Option<string>
  {
    match f
    case Name => d.name
    case Address => d.address
  }

  /** Assigns a scalar field (`d.name = v`): the field takes the value, it
      enters the change set whatever the value, and nothing else changes. */
  function Assign(d: Doc, f: ScalarField, v: Option<string>): (r: Doc)
    ensures Get(r, f) == v
    ensures forall g :: g != f ==> Get(r, g) == Get(d, g)
    ensures r.changed == d.changed + {f}
    ensures r.id == d.id && r.childs == d.childs
  {
    match f
    case Name => d.(name := v, changed := d.changed + {f})
    case Address => d.(address := v, changed := d.changed + {f})
  }

  /** Builds a new root document with the given attributes
      (`CopyableExample.new(name: .., address: ..)`): it gets a fresh
      identity, no children, and every attribute given a value counts as
      changed. */
  function NewDoc(ids: IdSupply, name: Option<string>, address: Option<string>): (r: Minted<Doc>)
    ensures ids.next <= r.value.id < r.ids.next
    ensures r.value.name == name && r.value.address == address
    ensures r.value.childs == []
    ensures forall f :: f in r.value.changed <==> Get(r.value, f).Some?
  {
    var id := Mint(ids);
    var changed := (if name.Some? then {Name} else {}) + (if address.Some? then {Address} else {});
    Minted(Doc(id.value, name, address, [], changed), id.ids)
  }

  /** Builds a child in a document's collection (`d.copyable_childs.build`):
      the child gets a fresh identity and goes after the existing ones. */
  function BuildChild(d: Doc, ids: IdSupply, childLabel: Option<string>): (r: Minted<Doc>)
    ensures |r.value.childs| == |d.childs| + 1
    ensures r.value.childs[..|d.childs|] == d.childs
    ensures r.value.childs[|d.childs|].childLabel == childLabel
    ensures ids.next <= r.value.childs[|d.childs|].id < r.ids.next
    ensures r.value == d.(childs := r.value.childs)
  {
    var id := Mint(ids);
    Minted(d.(childs := d.childs + [Child(id.value, childLabel)]), id.ids)
  }

  /** The identities of a sequence of children. */
  function ChildIds(cs: seq<Child>): set<Id>
  {
    set i | 0 <= i < |cs| :: cs[i].id
  }

  /** Every identity a document holds: its own and its children's. */
  function Ids(d: Doc): set<Id>
  {
    {d.id} + ChildIds(d.childs)
  }

  /** No two children share an identity. */
  predicate DistinctIds(cs: seq<Child>)
  {
    forall i, j :: 0 <= i < j < |cs| ==> cs[i].id != cs[j].id
  }

  /** Embedded children are owned exclusively: no identity occurs twice
      inside one document. */
  predicate WellFormed(d: Doc)
  {
    d.id !in ChildIds(d.childs) && DistinctIds(d.childs)
  }

  /** Every identity in `xs` has already been handed out by `s`. */
  predicate Below(s: IdSupply, xs: set<Id>)
  {
    forall x :: x in xs ==> x < s.next
  }

  /** Two documents that share no identity, each well formed, whose
      identities all come before the supply's next one. */
  predicate Separate(a: Doc, b: Doc, s: IdSupply)
  {
    && WellFormed(a) && WellFormed(b)
    && Below(s, Ids(a)) && Below(s, Ids(b))
    && Ids(a) !! Ids(b)
  }

  /** A document built from a supply that has already issued all of an
      existing document's identities is separate from that document. */
  lemma NewDocSeparate(a: Doc, ids: IdSupply, name: Option<string>, address: Option<string>)
    requires WellFormed(a) && Below(ids, Ids(a))
    ensures Separate(a, NewDoc(ids, name, address).value, NewDoc(ids, name, address).ids)
  {
  }

  /** Building a child keeps two documents separate. */
  lemma BuildChildSeparate(a: Doc, b: Doc, ids: IdSupply, childLabel: Option<string>)
    requires Separate(a, b, ids)
    ensures Separate(BuildChild(a, ids, childLabel).value, b, BuildChild(a, ids, childLabel).ids)
  {
    var r := BuildChild(a, ids, childLabel);
    var n := |a.childs|;
    var minted := r.value.childs[n].id;
    assert r.value.childs == a.childs + [r.value.childs[n]];
    assert ChildIds(r.value.childs) == ChildIds(a.childs) + {minted} by {
      forall x | x in ChildIds(r.value.childs)
        ensures x in ChildIds(a.childs) + {minted}
      {
        var i :| 0 <= i < |r.value.childs| && r.value.childs[i].id == x;
        if i < n {
          assert a.childs[i] == r.value.childs[i];
        }
      }
      forall x | x in ChildIds(a.childs)
        ensures x in ChildIds(r.value.childs)
      {
        var i :| 0 <= i < n && a.childs[i].id == x;
        assert r.value.childs[i] == a.childs[i];
      }
    }
    assert minted !in Ids(a) && minted !in Ids(b);
    forall i, j | 0 <= i < j < |r.value.childs|
      ensures r.value.childs[i].id != r.value.childs[j].id
    {
      if j < n {
        assert r.value.childs[i] == a.childs[i] && r.value.childs[j] == a.childs[j];
      } else {
        assert r.value.childs[i] == a.childs[i];
        assert a.childs[i].id in ChildIds(a.childs);
      }
    }
  }
}
