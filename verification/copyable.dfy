/** The public surface of the copy engine (`Mongoidal::Copyable`): the
    three copy operations a source document offers towards a destination
    document of the same schema. Each resolves the fields it will copy,
    then routes scalar fields to the field copier and the embedded
    collection to the embedded copier. The root identity is never copied. */
module Copyable {
  import opened Wrappers
  import opened Documents
  import opened FieldCopier
  import opened EmbeddedCopier

  /** A field name the schema does not declare; reported before anything
      is copied. */
  datatype CopyError = UnknownField(name: string)

  /** Every name in the list is a declared field. */
  predicate AllKnown(names: seq<string>)
  {
    forall i :: 0 <= i < |names| ==> Resolve(names[i]).Some?
  }

  /** Some name in the list denotes field `f`. */
  predicate Named(names: seq<string>, f: Field)
  {
    exists i :: 0 <= i < |names| && Resolve(names[i]) == Some(f)
  }

  /** `names[i]` is the first name in the list the schema does not declare. */
  predicate FirstUnknown(names: seq<string>, i: int)
  {
    && 0 <= i < |names|
    && Resolve(names[i]).None?
    && forall j :: 0 <= j < i ==> Resolve(names[j]).Some?
  }

  /** The fields a caller's list selects: the named ones, or every declared
      field but the identity when the list is empty. */
  predicate Selects(names: seq<string>, f: Field)
  {
    if |names| == 0 then f != Identity else Named(names, f)
  }

  /** Resolves a caller's field list to the set of fields it names, or
      reports the first name the schema does not declare. Order and
      repetition in the list do not matter. */
  function ResolveAll(names: seq<string>): (r: Result<set<Field>, CopyError>)
    ensures r.Ok? <==> AllKnown(names)
    ensures r.Ok? ==> forall f :: f in r.value <==> Named(names, f)
    ensures r.Err? ==> exists i :: FirstUnknown(names, i) && r.error == UnknownField(names[i])
    decreases |names|
  {
    if |names| == 0 then Ok({})
    else
      var rest := ResolveAll(names[1..]);
      assert forall i :: 0 <= i < |names[1..]| ==> names[1..][i] == names[i + 1];
      match Resolve(names[0])
      case None =>
        assert FirstUnknown(names, 0);
        Err(UnknownField(names[0]))
      case Some(f) =>
        match rest
        case Err(e) =>
          var i :| FirstUnknown(names[1..], i) && e == UnknownField(names[1..][i]);
          assert FirstUnknown(names, i + 1);
          Err(e)
        case Ok(fs) =>
          assert forall g :: Named(names[1..], g) ==> Named(names, g);
          assert forall g :: Named(names, g) ==> g == f || Named(names[1..], g) by {
            forall g | Named(names, g) ensures g == f || Named(names[1..], g) {
              var i :| 0 <= i < |names| && Resolve(names[i]) == Some(g);
              if i > 0 {
                assert names[1..][i - 1] == names[i];
              }
            }
          }
          Ok({f} + fs)
  }

  /** The scalar fields a document has assigned since it was built, as
      fields of the schema. */
  function ChangedFields(d: Doc): (r: set<Field>)
    ensures forall f :: f in r <==> f.Scalar? && f.scalar in d.changed
  {
    set s | s in d.changed :: Scalar(s)
  }

  /** Every declared field except the root identity. */
  const AllButIdentity: set<Field> := set f | f in DeclaredFields && f != Identity

  /** Copies the fields in `fs` from `src` into `dst`: each selected scalar
      under `opts`, the embedded collection (when selected) by duplication.
      The identity is never copied, even when selected. */
  function CopySelected(src: Doc, dst: Doc, fs: set<Field>, opts: Options, ids: IdSupply): (r: Minted<Doc>)
    ensures r.value.id == dst.id
    ensures forall f :: Scalar(f) !in fs ==> Get(r.value, f) == Get(dst, f)
    ensures forall f :: Scalar(f) in fs && Skips(opts, Get(src, f), Get(dst, f)) ==>
      Get(r.value, f) == Get(dst, f)
    ensures forall f :: Scalar(f) in fs && !Skips(opts, Get(src, f), Get(dst, f)) ==>
      Get(r.value, f) == Get(src, f) && f in r.value.changed
    ensures forall f :: f in r.value.changed <==>
      (f in dst.changed || (Scalar(f) in fs && !Skips(opts, Get(src, f), Get(dst, f))))
    ensures Childs in fs ==> AppendsDuplicates(dst.childs, r.value.childs, src.childs, ids, r.ids)
    ensures Childs !in fs ==> r.value.childs == dst.childs && r.ids == ids
  {
    var d1 := if Scalar(Name) in fs then CopyScalar(src, dst, Name, opts) else dst;
    var d2 := if Scalar(Address) in fs then CopyScalar(src, d1, Address, opts) else d1;
    if Childs in fs then CopyCollection(src, d2, ids) else Minted(d2, ids)
  }

  /** `copy_changes_to(dest, *fields)`: copies the fields the source has
      assigned since it was built, restricted to `names` when the list is
      not empty, overwriting the destination unconditionally. Fields the
      source never assigned, and fields not named, keep the destination's
      value; the embedded collection is never part of a change set. */
  function CopyChangesTo(src: Doc, dst: Doc, names: seq<string>, ids: IdSupply): (r: Result<Minted<Doc>, CopyError>)
    ensures r.Ok? <==> AllKnown(names)
    ensures r.Err? ==> exists i :: FirstUnknown(names, i) && r.error == UnknownField(names[i])
    ensures r.Ok? ==> r.value.value.id == dst.id && r.value.value.childs == dst.childs && r.value.ids == ids
    ensures r.Ok? ==> forall f :: f in src.changed && Selects(names, Scalar(f)) ==>
      Get(r.value.value, f) == Get(src, f)
    ensures r.Ok? ==> forall f :: f !in src.changed || !Selects(names, Scalar(f)) ==>
      Get(r.value.value, f) == Get(dst, f)
    ensures r.Ok? ==> forall f :: f in r.value.value.changed <==>
      (f in dst.changed || (f in src.changed && Selects(names, Scalar(f))))
  {
    match ResolveAll(names)
    case Err(e) => Err(e)
    case Ok(fs) =>
      var selected := if |names| == 0 then ChangedFields(src) else ChangedFields(src) * fs;
      Ok(CopySelected(src, dst, selected, Overwrite, ids))
  }

  /** `copy_to(dest)`: copies every declared field except the identity.
      Every scalar field of the destination ends up equal to the source's,
      nil included, and the source's children are duplicated after the
      destination's. */
  function CopyTo(src: Doc, dst: Doc, ids: IdSupply): (r: Minted<Doc>)
    ensures r.value.id == dst.id
    ensures forall f :: Get(r.value, f) == Get(src, f)
    ensures r.value.changed == dst.changed + {Name, Address}
    ensures AppendsDuplicates(dst.childs, r.value.childs, src.childs, ids, r.ids)
  {
    CopySelected(src, dst, AllButIdentity, Overwrite, ids)
  }

  /** `copy_fields_to(dest, *fields, overwrite_nil_only:, ignore_nil_source:)`:
      copies exactly the named fields, or every declared field but the
      identity when none is named. A selected scalar keeps the
      destination's value when a guard fires and takes the source's value
      otherwise; a selected embedded collection is duplicated whatever the
      guards say; other fields are left alone. */
  function CopyFieldsTo(src: Doc, dst: Doc, names: seq<string>, opts: Options, ids: IdSupply): (r: Result<Minted<Doc>, CopyError>)
    ensures r.Ok? <==> AllKnown(names)
    ensures r.Err? ==> exists i :: FirstUnknown(names, i) && r.error == UnknownField(names[i])
    ensures r.Ok? ==> r.value.value.id == dst.id
    ensures r.Ok? ==> forall f :: !Selects(names, Scalar(f)) ==> Get(r.value.value, f) == Get(dst, f)
    ensures r.Ok? ==> forall f :: Selects(names, Scalar(f)) && Skips(opts, Get(src, f), Get(dst, f)) ==>
      Get(r.value.value, f) == Get(dst, f)
    ensures r.Ok? ==> forall f :: Selects(names, Scalar(f)) && !Skips(opts, Get(src, f), Get(dst, f)) ==>
      Get(r.value.value, f) == Get(src, f)
    ensures r.Ok? ==> forall f :: f in r.value.value.changed <==>
      (f in dst.changed || (Selects(names, Scalar(f)) && !Skips(opts, Get(src, f), Get(dst, f))))
    ensures r.Ok? && Selects(names, Childs) ==>
      AppendsDuplicates(dst.childs, r.value.value.childs, src.childs, ids, r.value.ids)
    ensures r.Ok? && !Selects(names, Childs) ==> r.value.value.childs == dst.childs && r.value.ids == ids
  {
    match ResolveAll(names)
    case Err(e) => Err(e)
    case Ok(fs) =>
      var selected := if |names| == 0 then AllButIdentity else fs;
      Ok(CopySelected(src, dst, selected, opts, ids))
  }

  /** Whatever fields are selected, a copy keeps a source and destination
      that shared no identity apart: the destination keeps its own
      identity and every child copy gets one nobody holds. */
  lemma CopySelectedKeepsSeparate(src: Doc, dst: Doc, fs: set<Field>, opts: Options, ids: IdSupply)
    requires Separate(src, dst, ids)
    ensures var r := CopySelected(src, dst, fs, opts, ids); Separate(src, r.value, r.ids)
  {
    var r := CopySelected(src, dst, fs, opts, ids);
    if Childs in fs {
      assert Ids(r.value.(childs := dst.childs)) == Ids(dst);
      AppendKeepsSeparate(src, dst, r.value, ids, r.ids);
    } else {
      assert Ids(r.value) == Ids(dst);
    }
  }

  /** `copy_to` never copies an identity: the destination's identity stays
      distinct from the source's, and each duplicated child's identity
      differs from its original's and from every identity of the source. */
  lemma CopyToNeverCopiesIdentity(src: Doc, dst: Doc, ids: IdSupply)
    requires Separate(src, dst, ids)
    ensures var r := CopyTo(src, dst, ids);
      && Separate(src, r.value, r.ids)
      && r.value.id != src.id
      && (forall i :: 0 <= i < |src.childs| ==>
            r.value.childs[|dst.childs| + i].id != src.childs[i].id
            && r.value.childs[|dst.childs| + i].childLabel == src.childs[i].childLabel)
  {
    var r := CopyTo(src, dst, ids);
    CopySelectedKeepsSeparate(src, dst, AllButIdentity, Overwrite, ids);
    CopiesNeverAlias(src, dst, r.value, ids, r.ids);
  }

  /** `copy_fields_to` never copies an identity, whatever fields and
      guards are given: the documents stay separate, and when the
      collection is named each copied child keeps its original's label
      under a different identity. */
  lemma CopyFieldsToNeverCopiesIdentity(src: Doc, dst: Doc, names: seq<string>, opts: Options, ids: IdSupply)
    requires Separate(src, dst, ids)
    requires AllKnown(names)
    ensures var r := CopyFieldsTo(src, dst, names, opts, ids).value;
      && Separate(src, r.value, r.ids)
      && r.value.id != src.id
      && (Selects(names, Childs) ==> forall i :: 0 <= i < |src.childs| ==>
            r.value.childs[|dst.childs| + i].id != src.childs[i].id
            && r.value.childs[|dst.childs| + i].childLabel == src.childs[i].childLabel)
  {
    var fs := if |names| == 0 then AllButIdentity else ResolveAll(names).value;
    CopySelectedKeepsSeparate(src, dst, fs, opts, ids);
    var r := CopyFieldsTo(src, dst, names, opts, ids).value;
    if Selects(names, Childs) {
      CopiesNeverAlias(src, dst, r.value, ids, r.ids);
    }
  }

  /** `copy_changes_to` never copies an identity and adds no child. */
  lemma CopyChangesToNeverCopiesIdentity(src: Doc, dst: Doc, names: seq<string>, ids: IdSupply)
    requires Separate(src, dst, ids)
    requires AllKnown(names)
    ensures var r := CopyChangesTo(src, dst, names, ids).value;
      && Separate(src, r.value, r.ids)
      && r.value.id != src.id
  {
  }

  /** Repeating `copy_to` leaves the scalar fields and the change set as one
      call left them, but the embedded path is not idempotent: every call
      appends another duplicate of each source child. */
  lemma CopyToTwice(src: Doc, dst: Doc, ids: IdSupply)
    ensures var once := CopyTo(src, dst, ids);
      var twice := CopyTo(src, once.value, once.ids);
      && (forall f :: Get(twice.value, f) == Get(once.value, f))
      && twice.value.changed == once.value.changed
      && |twice.value.childs| == |dst.childs| + 2 * |src.childs|
      && (src.childs != [] <==> twice.value != once.value)
  {
  }

  /** `copy_to` is `copy_fields_to` with both guards off, naming every
      declared field but the identity or naming none. */
  lemma CopyToIsCopyFieldsToAll(src: Doc, dst: Doc, ids: IdSupply)
    ensures CopyFieldsTo(src, dst, ["name", "address", "copyable_childs"], Overwrite, ids)
      == Ok(CopyTo(src, dst, ids))
    ensures CopyFieldsTo(src, dst, [], Overwrite, ids) == Ok(CopyTo(src, dst, ids))
  {
  }

  /** The names of the fields a document has changed, in declaration
      order. */
  function ChangedNames(d: Doc): (r: seq<string>)
    ensures AllKnown(r)
    ensures forall f :: Named(r, f) <==> f in ChangedFields(d)
  {
    var names := (if Name in d.changed then ["name"] else []) + (if Address in d.changed then ["address"] else []);
    assert forall i :: 0 <= i < |names| ==> names[i] == "name" || names[i] == "address";
    assert forall f :: Named(names, f) <==> f in ChangedFields(d) by {
      forall f ensures Named(names, f) <==> f in ChangedFields(d) {
        if f == Scalar(Name) && Name in d.changed {
          assert Resolve(names[0]) == Some(f);
        } else if f == Scalar(Address) && Address in d.changed {
          assert Resolve(names[|names| - 1]) == Some(f);
        }
        if Named(names, f) {
          var i :| 0 <= i < |names| && Resolve(names[i]) == Some(f);
          if names[i] == "name" {
            assert Name in d.changed;
          } else {
            assert Address in d.changed;
          }
        }
      }
    }
    names
  }

  /** `copy_changes_to` with no names is `copy_fields_to` naming exactly
      the fields the source has changed, with both guards off; when the
      source has changed nothing it leaves the destination as it was. */
  lemma CopyChangesToIsCopyFieldsToChanged(src: Doc, dst: Doc, ids: IdSupply)
    ensures src.changed != {} ==>
      CopyChangesTo(src, dst, [], ids) == CopyFieldsTo(src, dst, ChangedNames(src), Overwrite, ids)
    ensures src.changed == {} ==> CopyChangesTo(src, dst, [], ids) == Ok(Minted(dst, ids))
  {
    var names := ChangedNames(src);
    var fs := ResolveAll(names).value;
    assert fs == ChangedFields(src);
  }
}
