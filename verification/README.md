# Copyable: a Dafny model of mongoidal's document copy engine

`Mongoidal::Copyable` is a mixin for Mongoid documents. It copies field values from a source document
`a` to a destination `b` of the same schema. The schema here is the one the test suite declares: two
nullable string fields, `name` and `address`, and one ordered embedded collection, `copyable_childs`.
Each child has an identity and a `label`. The mixin offers three operations:

- `copy_changes_to(dest, *fields)` copies the fields the source has assigned since it was built. A
  non-empty field list restricts the copy to the names it lists.
- `copy_to(dest)` copies every declared field except the root identity.
- `copy_fields_to(dest, *fields, overwrite_nil_only:, ignore_nil_source:)` copies exactly the named
  fields (every field but the identity when none is named) under two guards. `overwrite_nil_only` keeps a destination value that is already present.
  `ignore_nil_source` is on by default and keeps the destination value when the source holds nil.

Embedded children are never aliased. Every copied child is rebuilt under the destination with a freshly
minted identity and the original's label.

The module that implements the mixin is not part of this model. Its behaviour is reconstructed from
its test suite, `spec/copyable_spec.rb`, and every operation's contract traces to an assertion there.
Where the tests are silent, the model makes a choice, and each such choice is listed as an assumption
under "Left out".

## Layout

- `wrappers.dfy`, module `Wrappers`: `Option` (nil or a value) and `Result` (a value or an error).
- `documents.dfy`, module `Documents`: the schema and its field registry (`FieldName`, `Resolve`), the
  accessors (`Get`, `Assign`), the change set, and document and child construction (`NewDoc`,
  `BuildChild`). It also holds the identity supply and the identity invariant `Separate`: two
  well-formed documents that share no identity, all of whose identities the supply has already issued.
- `embedded_copier.dfy`, module `EmbeddedCopier`: duplication of the embedded collection, specified by
  the predicates `Duplicates` and `AppendsDuplicates`.
- `field_copier.dfy`, module `FieldCopier`: the merge options and the copy of one scalar field under the
  two guards (`Skips`).
- `copyable.dfy`, module `Copyable`: field-list resolution, the three public operations, and the lemmas
  that relate them.
- `copyable_scenarios.dfy`, module `CopyableScenarios`: one lemma per example in the test suite. Each
  is stated for every starting identity supply.

Identities are natural numbers handed out by an `IdSupply` counter. Freshness means that every identity
in use lies below the counter. Each operation threads the counter through and returns the advanced
counter with the new destination.

## Model

| member | source | states |
|---|---|---|
| Documents.Mint | spec/copyable_spec.rb:58-60 | a minted identity was never handed out before: it is at least the supply's counter and below the advanced counter |
| Documents.Resolve | spec/copyable_spec.rb:14-17 | a name resolves to a field exactly when that field is declared under that name; undeclared names resolve to nothing |
| Documents.ResolveFieldName | spec/copyable_spec.rb:14-17 | every declared field (`_id`, `name`, `address`, `copyable_childs`) is found again under its own name |
| Documents.Assign | spec/copyable_spec.rb:28-29 | assigning a scalar sets that field, adds it to the change set, and leaves the other field, the identity and the children alone |
| Documents.NewDoc | spec/copyable_spec.rb:21-22 | a new document has a fresh identity, the given attributes, no children, and a change set holding exactly the attributes given a value |
| Documents.BuildChild | spec/copyable_spec.rb:23 | building a child appends one child with the given label and a fresh identity, and keeps the existing children and every other field |
| Documents.NewDocSeparate | spec/copyable_spec.rb:21-22 | a document built after another shares no identity with it |
| Documents.BuildChildSeparate | spec/copyable_spec.rb:23 | building a child keeps two separate documents separate |
| EmbeddedCopier.DuplicateChildren | spec/copyable_spec.rb:54-55 | one copy per child, in order, with the same label and pairwise-distinct identities minted from the supply |
| EmbeddedCopier.CopyCollection | spec/copyable_spec.rb:74-78 | the destination keeps its identity, scalars and existing children, and gains a duplicate of every source child after them; an empty source changes nothing |
| EmbeddedCopier.AppendKeepsSeparate | spec/copyable_spec.rb:77-79 | appending duplicates keeps source and destination separate: no copy takes an identity already in use on either side |
| EmbeddedCopier.CopiesNeverAlias | spec/copyable_spec.rb:54-55 | each copied child has its original's label, an identity different from its original's, and no identity of the source at all |
| FieldCopier.CopyScalar | spec/copyable_spec.rb:85-127 | when a guard fires (destination present under overwrite_nil_only, source nil under ignore_nil_source) the destination is unchanged; otherwise the field takes the source value, nil included, and enters the change set |
| Copyable.ResolveAll | spec/copyable_spec.rb:33 | a field list resolves exactly when every name is declared, to the set of fields it names; otherwise it reports the first undeclared name in the list |
| Copyable.CopySelected | spec/copyable_spec.rb:63-79 | the identity never changes; unselected scalars stay; selected scalars follow the guards; the change set grows by exactly the scalars copied; the children are duplicated exactly when the collection is selected |
| Copyable.CopyChangesTo | spec/copyable_spec.rb:26-43 | succeeds exactly when all names are declared; a field the source changed and the list names (or any changed field, with no list) takes the source value; every other field, the identity and the children keep the destination's; the change set grows by exactly the fields copied |
| Copyable.CopyTo | spec/copyable_spec.rb:45-61 | every scalar of the destination equals the source's; the identity stays the destination's; the source's children are duplicated after the destination's |
| Copyable.CopyFieldsTo | spec/copyable_spec.rb:63-130 | succeeds exactly when all names are declared; the names select the fields, an empty list every field but the identity; unselected scalars stay; selected scalars keep the destination value exactly when a guard fires; the change set grows by exactly the scalars copied; a selected collection is duplicated whatever the guards |
| Copyable.CopySelectedKeepsSeparate | spec/copyable_spec.rb:58-60 | any selected copy between separate documents leaves them separate under the advanced supply |
| Copyable.CopyToNeverCopiesIdentity | spec/copyable_spec.rb:54-60 | after `copy_to` the destination's identity differs from the source's, and each copied child keeps its original's label under a different identity |
| Copyable.CopyFieldsToNeverCopiesIdentity | spec/copyable_spec.rb:72-79 | `copy_fields_to` keeps the documents separate whatever the field list and guards; when the collection is selected, each copied child keeps its original's label under a different identity |
| Copyable.CopyChangesToNeverCopiesIdentity | spec/copyable_spec.rb:26-43 | `copy_changes_to` keeps the documents separate |
| Copyable.CopyToTwice | spec/copyable_spec.rb:45-53 | a second `copy_to` leaves scalars and change set as the first left them, but appends another duplicate of each child: the result differs exactly when the source has children |
| Copyable.CopyToIsCopyFieldsToAll | spec/copyable_spec.rb:45-79 | `copy_to` equals `copy_fields_to` with both guards off, whether it names name, address and copyable_childs or names nothing |
| Copyable.ChangedNames | spec/copyable_spec.rb:27-30 | the listed names are all declared and name exactly the fields the document has changed |
| Copyable.CopyChangesToIsCopyFieldsToChanged | spec/copyable_spec.rb:38-42 | `copy_changes_to` with no names equals `copy_fields_to` naming exactly the source's changed fields with both guards off, and leaves the destination as it was when the source changed nothing |
| CopyableScenarios.WithChildSeparate | spec/copyable_spec.rb:21-24 | the test fixtures `a` (with `a_child`) and `b` are separate documents |
| CopyableScenarios.CopyChangesToNamedField | spec/copyable_spec.rb:32-36 | `copy_changes_to(b, :name)` gives `b.name == '1'` and leaves `b.address` nil |
| CopyableScenarios.CopyChangesToAllChanged | spec/copyable_spec.rb:38-42 | `copy_changes_to(b)` gives `b.name == '1'` and `b.address == '2'` |
| CopyableScenarios.CopyToCopiesFieldsNotIds | spec/copyable_spec.rb:45-60 | `copy_to` copies name and address, gives `b` one child labelled 'a' with an identity other than `a_child`'s, and keeps `b.id != a.id` |
| CopyableScenarios.CopyFieldsToNoExistingValues | spec/copyable_spec.rb:64-79 | copying address and the collection into an empty `b` copies the address and the child labelled 'a' under a new identity |
| CopyableScenarios.CopyFieldsToOverwriteNilOnly | spec/copyable_spec.rb:82-96 | with `overwrite_nil_only: true` the existing address '1' is kept and the child labelled 'a' is still copied |
| CopyableScenarios.IgnoreNilSourceByDefault | spec/copyable_spec.rb:100-113 | by default a nil source address does not replace 'test' |
| CopyableScenarios.CopyNilSourceWhenNotIgnored | spec/copyable_spec.rb:115-127 | with `ignore_nil_source: false` the nil is copied and `b.address` becomes nil |

## Left out

- Persistence (`save`, `reload`): the model works on in-memory documents. Saving and reloading also clear a document's change set in Mongoid; the model does not represent that, and no example reads a change set after a save.
- Mongoid's field-registration and reflection machinery (`include Mongoid::Document`, `field`, `embeds_many`, `embedded_in`): the schema is a fixed record type with a fixed name table.
- ObjectId generation: identities are natural numbers from a counter. Only freshness is modelled, not the id bytes. `to_s` on an identity is taken to be injective.
- Documents.Assign: always adds the field to the change set, whatever the value. Mongoid's dirty tracking also compares values, so assigning the value a field already holds may leave it unchanged there. The tests only assign new values.
- Documents.NewDoc: marks every attribute given a non-nil value as changed. Mongoid's treatment of attributes given at construction is not modelled further.
- Embedded copy appends duplicates after the destination's existing children rather than replacing them. This is an assumption: the tests only copy into an empty collection. `Copyable.CopyToTwice` proves the consequence that repeated copies keep appending.
- Guards against a non-empty destination collection: a named `copyable_childs` is duplicated whatever the guards say. This is an assumption: the tests only cover an empty destination collection.
- Both guards at once: either guard keeps the destination value, so the order in which they are checked cannot be observed. No test sets both to non-default values.
- Unknown field names: the model reports `UnknownField` before anything is copied. This is an assumption; the tests never pass an undeclared name.
- `copy_fields_to` with no field names copies every declared field but the identity under the given guards, like `copy_to`. This is an assumption; the tests always name fields.
- `copy_to` and `copy_changes_to` copy with both guards off, so a nil source value overwrites the destination. This is an assumption; no test copies a nil through either operation.
- A field list is treated as a set: order and repetition do not matter. Naming `_id` is accepted, but the identity is never copied.
- `copy_changes_to` never touches the embedded collection: the change set holds scalar fields only.
- Fields of an embedded child other than its identity are copied unconditionally. The guards apply only to the root document's scalar fields.
