/** The behaviour the Copyable test suite pins down, one lemma per example,
    stated for every starting identity supply. Documents are built the way
    the examples build them: `a` with name 'name' and address 'address',
    `b` empty (or with address '1'), and `a_child` with label 'a' built in
    `a`'s collection. */
module CopyableScenarios {
  import opened Wrappers
  import opened Documents
  import opened FieldCopier
  import opened Copyable

  /** `a` as the examples build it. */
  function SourceDoc(ids: IdSupply): Minted<Doc>
  {
    NewDoc(ids, Some("name"), Some("address"))
  }

  /** `a` after `a.name = '1'` and `a.address = '2'`. */
  function ChangedSource(ids: IdSupply): Minted<Doc>
  {
    var a := SourceDoc(ids);
    Minted(Assign(Assign(a.value, Name, Some("1")), Address, Some("2")), a.ids)
  }

  /** `a` with `a_child` built, and `b` built with the given address;
      returned as (a, b, supply left). */
  function WithChild(ids: IdSupply, bAddress: Option<string>): (Doc, Doc, IdSupply)
  {
    var a := SourceDoc(ids);
    var b := NewDoc(a.ids, None, bAddress);
    var ac := BuildChild(a.value, b.ids, Some("a"));
    (ac.value, b.value, ac.ids)
  }

  /** The documents `WithChild` builds are separate, and `a` holds exactly
      the child labelled 'a'. */
  lemma WithChildSeparate(ids: IdSupply, bAddress: Option<string>)
    ensures var (a, b, s) := WithChild(ids, bAddress);
      && Separate(a, b, s)
      && |a.childs| == 1 && a.childs[0].childLabel == Some("a")
      && b.childs == [] && b.address == bAddress && b.name == None
  {
  }

  /** `copy_changes_to(b, :name)` copies the changed name and nothing
      else: the empty destination's address stays nil. */
  lemma CopyChangesToNamedField(ids: IdSupply)
    ensures var a := ChangedSource(ids);
      var b := NewDoc(a.ids, None, None);
      var r := CopyChangesTo(a.value, b.value, ["name"], b.ids);
      && r.Ok?
      && r.value.value.name == Some("1")
      && r.value.value.address == None
  {
  }

  /** `copy_changes_to(b)` with no names copies every changed field. */
  lemma CopyChangesToAllChanged(ids: IdSupply)
    ensures var a := ChangedSource(ids);
      var b := NewDoc(a.ids, None, None);
      var r := CopyChangesTo(a.value, b.value, [], b.ids);
      && r.Ok?
      && r.value.value.name == Some("1")
      && r.value.value.address == Some("2")
  {
  }

  /** `copy_to(b)` copies name and address, duplicates `a_child` as
      `b`'s first child with label 'a' and a different identity, and
      leaves `b`'s identity different from `a`'s. */
  lemma CopyToCopiesFieldsNotIds(ids: IdSupply)
    ensures var (a, b, s) := WithChild(ids, None);
      var r := CopyTo(a, b, s).value;
      && r.name == a.name && r.address == a.address
      && |r.childs| == 1
      && r.childs[0].childLabel == Some("a")
      && r.childs[0].id != a.childs[0].id
      && r.id != a.id
  {
  }

  /** `copy_fields_to(b, :address, :copyable_childs)` into an empty `b`
      copies the address and `a_child`, and the copy gets a new identity. */
  lemma CopyFieldsToNoExistingValues(ids: IdSupply)
    ensures var (a, b, s) := WithChild(ids, None);
      var r := CopyFieldsTo(a, b, ["address", "copyable_childs"], Defaults, s);
      && r.Ok?
      && r.value.value.address == a.address
      && |r.value.value.childs| == 1
      && r.value.value.childs[0].childLabel == Some("a")
      && r.value.value.childs[0].id != a.childs[0].id
  {
  }

  /** With `overwrite_nil_only: true` the address '1' already in `b` is
      kept, while `a_child` is still copied into `b`'s empty collection. */
  lemma CopyFieldsToOverwriteNilOnly(ids: IdSupply)
    ensures var (a, b, s) := WithChild(ids, Some("1"));
      var opts := Defaults.(overwriteNilOnly := true);
      var r := CopyFieldsTo(a, b, ["address", "copyable_childs"], opts, s);
      && r.Ok?
      && r.value.value.address == Some("1")
      && |r.value.value.childs| == 1
      && r.value.value.childs[0].childLabel == Some("a")
  {
  }

  /** `a` with a nil address and `b` with address 'test', as the
      `ignore_nil_source` examples set them up. */
  function NilSourcePair(ids: IdSupply): (Doc, Doc, IdSupply)
  {
    var a := SourceDoc(ids);
    var b := NewDoc(a.ids, None, Some("1"));
    (Assign(a.value, Address, None), Assign(b.value, Address, Some("test")), b.ids)
  }

  /** `ignore_nil_source` is on by default: copying a nil address does not
      replace `b`'s 'test'. */
  lemma IgnoreNilSourceByDefault(ids: IdSupply)
    ensures var (a, b, s) := NilSourcePair(ids);
      var r := CopyFieldsTo(a, b, ["address"], Defaults, s);
      r.Ok? && r.value.value.address == Some("test")
  {
  }

  /** With `ignore_nil_source: false` the nil address is copied and `b`'s
      address becomes nil. */
  lemma CopyNilSourceWhenNotIgnored(ids: IdSupply)
    ensures var (a, b, s) := NilSourcePair(ids);
      var r := CopyFieldsTo(a, b, ["address"], Defaults.(ignoreNilSource := false), s);
      r.Ok? && r.value.value.address == None
  {
  }
}
