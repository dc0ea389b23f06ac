/** Copying one scalar field from a source document to a destination under
    the two merge guards `overwrite_nil_only` and `ignore_nil_source`. */
module FieldCopier {
  import opened Wrappers
  import opened Documents

  /** The merge options of `copy_fields_to`. */
  datatype Options = Options(overwriteNilOnly: bool, ignoreNilSource: bool)

  /** The options `copy_fields_to` uses when the caller names none:
      `overwrite_nil_only` off, `ignore_nil_source` on. */
  const Defaults := Options(overwriteNilOnly := false, ignoreNilSource := true)

  /** Both guards off: every selected field is overwritten, nil included.
      This is how `copy_changes_to` and `copy_to` copy. */
  const Overwrite := Options(overwriteNilOnly := false, ignoreNilSource := false)

  /** A guard fires and the destination value is kept: the destination
      already holds a value under `overwrite_nil_only`, or the source holds
      nil under `ignore_nil_source`. */
  predicate Skips(opts: Options, from: Option<string>, into: Option<string>)
  {
    || (opts.overwriteNilOnly && into.Some?)
    || (opts.ignoreNilSource && from.None?)
  }

  /** Copies field `f` from `src` into `dst` under `opts` (FieldCopier).
      When a guard fires the destination is returned untouched; otherwise
      the field is assigned the source's value, nil included, and enters
      the destination's change set. No other field, the identity and the
      children never change. */
  function CopyScalar(src: Doc, dst: Doc, f: ScalarField, opts: Options): (r: Doc)
    ensures Skips(opts, Get(src, f), Get(dst, f)) ==> r == dst
    ensures !Skips(opts, Get(src, f), Get(dst, f)) ==>
      Get(r, f) == Get(src, f) && r.changed == dst.changed + {f}
    ensures forall g :: g != f ==> Get(r, g) == Get(dst, g)
    ensures r.id == dst.id && r.childs == dst.childs
  {
    if Skips(opts, Get(src, f), Get(dst, f)) then dst
    else Assign(dst, f, Get(src, f))
  }
}
