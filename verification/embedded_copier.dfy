/** Duplication of the embedded collection `copyable_childs`: every source
    child is rebuilt under the destination with a freshly minted identity
    and the same label, in the same order, after the destination's
    existing children. */
module EmbeddedCopier {
  import opened Documents

  /** `copies` duplicates `originals`: one copy per original, in order, with
      the original's label, and identities that are pairwise distinct and
      were minted between supplies `before` and `after`. */
  predicate Duplicates(copies: seq<Child>, originals: seq<Child>, before: IdSupply, after: IdSupply)
  {
    && |copies| == |originals|
    && before.next <= after.next
    && (forall i :: 0 <= i < |copies| ==> copies[i].childLabel == originals[i].childLabel)
    && (forall i :: 0 <= i < |copies| ==> before.next <= copies[i].id < after.next)
    && DistinctIds(copies)
  }

  /** `after` is `before` with duplicates of `originals` appended. */
  predicate AppendsDuplicates(before: seq<Child>, after: seq<Child>, originals: seq<Child>, s0: IdSupply, s1: IdSupply)
  {
    && |after| == |before| + |originals|
    && after[..|before|] == before
    && Duplicates(after[|before|..], originals, s0, s1)
  }

  /** Copies one child under a new identity; every other field is kept. */
  function Rebuild(c: Child, id: Id): Child
  {
    c.(id := id)
  }

  /** Duplicates a sequence of children, minting one identity per child. */
  function DuplicateChildren(cs: seq<Child>, ids: IdSupply): (r: Minted<seq<Child>>)
    ensures Duplicates(r.value, cs, ids, r.ids)
    decreases |cs|
  {
    if |cs| == 0 then Minted([], ids)
    else
      var id := Mint(ids);
      var rest := DuplicateChildren(cs[1..], id.ids);
      Minted([Rebuild(cs[0], id.value)] + rest.value, rest.ids)
  }

  /** Copies the source's embedded collection into the destination
      (EmbeddedCopier): the destination keeps its own identity, scalar
      fields, change set and existing children, and gains a duplicate of
      every source child. An empty source collection changes nothing. */
  function CopyCollection(src: Doc, dst: Doc, ids: IdSupply): (r: Minted<Doc>)
    ensures r.value == dst.(childs := r.value.childs)
    ensures AppendsDuplicates(dst.childs, r.value.childs, src.childs, ids, r.ids)
    ensures src.childs == [] ==> r.value == dst
  {
    var dup := DuplicateChildren(src.childs, ids);
    assert (dst.childs + dup.value)[..|dst.childs|] == dst.childs;
    assert (dst.childs + dup.value)[|dst.childs|..] == dup.value;
    Minted(dst.(childs := dst.childs + dup.value), dup.ids)
  }

  /** The identities of a sequence that extends another are the old ones
      and those of the extension. */
  lemma ChildIdsSplit(before: seq<Child>, after: seq<Child>)
    requires |before| <= |after| && after[..|before|] == before
    ensures ChildIds(after) == ChildIds(before) + ChildIds(after[|before|..])
  {
  }

  /** Appending duplicates keeps the source and the destination separate:
      no copied child takes an identity the source or the destination
      already holds, and the copies do not collide with each other. */
  lemma AppendKeepsSeparate(src: Doc, dst: Doc, after: Doc, s0: IdSupply, s1: IdSupply)
    requires Separate(src, dst, s0)
    requires after.id == dst.id
    requires AppendsDuplicates(dst.childs, after.childs, src.childs, s0, s1)
    ensures Separate(src, after, s1)
  {
    var n := |dst.childs|;
    var tail := after.childs[n..];
    ChildIdsSplit(dst.childs, after.childs);
    assert forall x :: x in ChildIds(tail) ==> s0.next <= x < s1.next;
    assert after.id !in ChildIds(after.childs);
    forall i, j | 0 <= i < j < |after.childs|
      ensures after.childs[i].id != after.childs[j].id
    {
      if j < n {
        assert after.childs[i] == dst.childs[i] && after.childs[j] == dst.childs[j];
      } else if i < n {
        assert after.childs[i] == dst.childs[i];
        assert dst.childs[i].id in ChildIds(dst.childs);
        assert tail[j - n] == after.childs[j];
      } else {
        assert tail[i - n] == after.childs[i] && tail[j - n] == after.childs[j];
      }
    }
    assert Ids(after) == Ids(dst) + ChildIds(tail);
  }

  /** A copied child never carries the identity of the child it copies, nor
      any other identity of the source. */
  lemma CopiesNeverAlias(src: Doc, dst: Doc, after: Doc, s0: IdSupply, s1: IdSupply)
    requires Separate(src, dst, s0)
    requires AppendsDuplicates(dst.childs, after.childs, src.childs, s0, s1)
    ensures forall i :: |dst.childs| <= i < |after.childs| ==> after.childs[i].id !in Ids(src)
    ensures forall i :: 0 <= i < |src.childs| ==>
      after.childs[|dst.childs| + i].id != src.childs[i].id
      && after.childs[|dst.childs| + i].childLabel == src.childs[i].childLabel
  {
  }
}
