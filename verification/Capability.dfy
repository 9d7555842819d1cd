/** The capability lattice: fifteen markers ordered as a tree (`all` above every family,
    `net` above its two scopes, `io` above its two scopes), and the set operations the
    checker builds on (compiler/crates/kryos-capabilities/src/model.rs). */
module Capabilities {

  datatype Capability =
    | Net | NetHttp | NetTcp
    | Io | FsRead | FsWrite
    | Ffi | Compute | Crypto | Process | Env | Term | Db | Time
    | All
  {
    /** Holding `this` is enough for `required`. */
    predicate Satisfies(required: Capability) {
      || this == All
      || this == required
      || (this == Net && (required == NetHttp || required == NetTcp))
      || (this == Io && (required == FsRead || required == FsWrite))
    }

    /** The two capabilities share some access. */
    predicate Overlaps(other: Capability) {
      Satisfies(other) || other.Satisfies(this)
    }
  }

  type CapSet = set<Capability>

  predicate SatisfiesRequired(s: CapSet, required: Capability) {
    exists c | c in s :: c.Satisfies(required)
  }

  predicate IsSubsetOf(s: CapSet, other: CapSet) {
    forall c | c in s :: SatisfiesRequired(other, c)
  }

  /** `s` with every capability that overlaps a denied one removed. */
  function Without(s: CapSet, denied: CapSet): CapSet {
    set c | c in s && forall d | d in denied :: !c.Overlaps(d)
  }

  function ExcessOver(s: CapSet, other: CapSet): CapSet {
    set c | c in s && !SatisfiesRequired(other, c)
  }

  /** `c` is harmless under a set of denied capabilities. */
  predicate Avoids(c: Capability, denied: CapSet) {
    forall d | d in denied :: !c.Overlaps(d)
  }

  /** The order is a tree: what lies above a common capability is a chain. */
  lemma TreeOrder(a: Capability, b: Capability, c: Capability)
    ensures a.Satisfies(a)
    ensures a.Satisfies(b) && b.Satisfies(c) ==> a.Satisfies(c)
    ensures a.Satisfies(b) && b.Satisfies(a) ==> a == b
    ensures a.Satisfies(c) && b.Satisfies(c) ==> a.Overlaps(b)
  {
  }

  lemma SubsetTransports(s: CapSet, other: CapSet, c: Capability)
    requires IsSubsetOf(s, other) && SatisfiesRequired(s, c)
    ensures SatisfiesRequired(other, c)
  {
    var h :| h in s && h.Satisfies(c);
    var g :| g in other && g.Satisfies(h);
    TreeOrder(g, h, c);
  }

  /** Subset is transitive, and an excess is reported exactly when it fails. */
  lemma SubsetTransitive(a: CapSet, b: CapSet, c: CapSet)
    requires IsSubsetOf(a, b) && IsSubsetOf(b, c)
    ensures IsSubsetOf(a, c)
  {
    forall x | x in a
      ensures SatisfiesRequired(c, x)
    {
      SubsetTransports(b, c, x);
    }
  }

  lemma ExcessEmptyIffSubset(s: CapSet, other: CapSet)
    ensures ExcessOver(s, other) == {} <==> IsSubsetOf(s, other)
  {
    if ExcessOver(s, other) == {} {
      forall c | c in s
        ensures SatisfiesRequired(other, c)
      {
        assert c !in ExcessOver(s, other);
      }
    }
  }

  /** What a narrowed set still grants was granted before and overlaps nothing denied. */
  lemma NarrowedGrantsAvoidDenied(s: CapSet, denied: CapSet, c: Capability)
    requires SatisfiesRequired(Without(s, denied), c)
    ensures SatisfiesRequired(s, c)
    ensures Avoids(c, denied)
  {
    var h :| h in Without(s, denied) && h.Satisfies(c);
    forall d | d in denied
      ensures !c.Overlaps(d)
    {
      TreeOrder(h, c, d);
      TreeOrder(h, d, c);
    }
  }

  /** What narrowing should leave of a grant: everything that overlaps nothing denied. */
  ghost predicate NarrowsExactly(s: CapSet, denied: CapSet) {
    forall c | SatisfiesRequired(s, c) && Avoids(c, denied) :: SatisfiesRequired(Without(s, denied), c)
  }

  /** `family` goes because its scope `gone` is denied, and takes along `kept`, which is neither
      denied nor held on its own. */
  predicate TakesSibling(s: CapSet, denied: CapSet, family: Capability, gone: Capability, kept: Capability) {
    && (family in s || All in s) && kept !in s
    && gone in denied && kept !in denied && family !in denied && All !in denied
  }

  predicate IsScope(c: Capability) {
    c == NetHttp || c == NetTcp || c == FsRead || c == FsWrite
  }

  /** `all` goes with any denial, and takes along the capability `c`, which is not held beside it. */
  predicate GoesWithAll(s: CapSet, denied: CapSet, c: Capability) {
    All in s && denied != {} && c !in s && !IsScope(c) && Avoids(c, denied)
  }

  /** Denying a scope (`net:http`) also takes away a sibling (`net:tcp`) that was only held
      through the family, and denying anything takes away what was only held through `all`.
      These are the only losses beyond what overlaps a denied capability. */
  lemma NarrowsExactlyIff(s: CapSet, denied: CapSet)
    ensures NarrowsExactly(s, denied)
       <==> && !TakesSibling(s, denied, Net, NetHttp, NetTcp) && !TakesSibling(s, denied, Net, NetTcp, NetHttp)
            && !TakesSibling(s, denied, Io, FsRead, FsWrite) && !TakesSibling(s, denied, Io, FsWrite, FsRead)
            && forall c :: !GoesWithAll(s, denied, c)
  {
    SiblingIsLost(s, denied, Net, NetHttp, NetTcp);
    SiblingIsLost(s, denied, Net, NetTcp, NetHttp);
    SiblingIsLost(s, denied, Io, FsRead, FsWrite);
    SiblingIsLost(s, denied, Io, FsWrite, FsRead);
    forall c | GoesWithAll(s, denied, c)
      ensures !NarrowsExactly(s, denied)
    {
      assert All.Satisfies(c);
      assert forall h | h in s && h.Satisfies(c) :: h == All;
      var d :| d in denied;
      assert All.Overlaps(d);
      assert !SatisfiesRequired(Without(s, denied), c);
    }
    if c :| SatisfiesRequired(s, c) && Avoids(c, denied) && !SatisfiesRequired(Without(s, denied), c) {
      LossHasACause(s, denied, c);
    }
  }

  lemma SiblingIsLost(s: CapSet, denied: CapSet, family: Capability, gone: Capability, kept: Capability)
    requires Siblings(family, gone, kept)
    ensures TakesSibling(s, denied, family, gone, kept) ==> !NarrowsExactly(s, denied)
  {
    if TakesSibling(s, denied, family, gone, kept) {
      assert gone != kept;
      assert SatisfiesRequired(s, kept) by {
        assert family.Satisfies(kept) && All.Satisfies(kept);
      }
      assert Avoids(kept, denied);
      assert forall h | h in s && h.Satisfies(kept) :: h.Overlaps(gone);
      assert !SatisfiesRequired(Without(s, denied), kept);
    }
  }

  lemma SurvivorGrants(s: CapSet, denied: CapSet, h: Capability, c: Capability)
    ensures h in s && Avoids(h, denied) && h.Satisfies(c) ==> SatisfiesRequired(Without(s, denied), c)
  {
    assert h in s && Avoids(h, denied) ==> h in Without(s, denied);
  }

  lemma LossHasACause(s: CapSet, denied: CapSet, c: Capability)
    requires SatisfiesRequired(s, c) && Avoids(c, denied) && !SatisfiesRequired(Without(s, denied), c)
    ensures || TakesSibling(s, denied, Net, NetHttp, NetTcp) || TakesSibling(s, denied, Net, NetTcp, NetHttp)
            || TakesSibling(s, denied, Io, FsRead, FsWrite) || TakesSibling(s, denied, Io, FsWrite, FsRead)
            || GoesWithAll(s, denied, c)
            || ((c == NetHttp || c == NetTcp) && GoesWithAll(s, denied, Net))
            || ((c == FsRead || c == FsWrite) && GoesWithAll(s, denied, Io))
  {
    var h :| h in s && h.Satisfies(c);
    assert h !in Without(s, denied);
    var d :| d in denied && h.Overlaps(d);
    assert !c.Overlaps(d) && h != c;
    SurvivorGrants(s, denied, c, c);
    if IsScope(c) {
      match c
      case NetHttp => ScopeLoss(s, denied, Net, NetTcp, c);
      case NetTcp => ScopeLoss(s, denied, Net, NetHttp, c);
      case FsRead => ScopeLoss(s, denied, Io, FsWrite, c);
      case FsWrite => ScopeLoss(s, denied, Io, FsRead, c);
    }
  }

  predicate Siblings(family: Capability, a: Capability, b: Capability) {
    || (family == Net && ((a == NetHttp && b == NetTcp) || (a == NetTcp && b == NetHttp)))
    || (family == Io && ((a == FsRead && b == FsWrite) || (a == FsWrite && b == FsRead)))
  }

  /** What overlaps a family but not one of its scopes is the other scope. */
  lemma SiblingIsDenied(denied: CapSet, family: Capability, gone: Capability, kept: Capability)
    requires Siblings(family, gone, kept) && Avoids(kept, denied) && !Avoids(family, denied)
    ensures gone in denied && kept !in denied && family !in denied && All !in denied
  {
    var d :| d in denied && family.Overlaps(d);
    assert !kept.Overlaps(d);
    assert forall x | x in denied :: !kept.Overlaps(x);
    assert kept.Overlaps(kept) && kept.Overlaps(family) && kept.Overlaps(All);
  }

  /** A scope lost: the family was taken by the sibling, or went with `all`. */
  lemma ScopeLoss(s: CapSet, denied: CapSet, family: Capability, gone: Capability, kept: Capability)
    requires SatisfiesRequired(s, kept) && Avoids(kept, denied) && !SatisfiesRequired(Without(s, denied), kept)
    requires kept !in s && denied != {} && Siblings(family, gone, kept)
    ensures TakesSibling(s, denied, family, gone, kept) || GoesWithAll(s, denied, family)
  {
    var h :| h in s && h.Satisfies(kept);
    assert h == family || h == All;
    SurvivorGrants(s, denied, family, kept);
    assert family.Satisfies(kept) && !IsScope(family);
    if !Avoids(family, denied) {
      SiblingIsDenied(denied, family, gone, kept);
    }
  }

  /** Whoever denies only whole families, and holds no `all`, loses nothing else. */
  lemma FamilyDenyIsExact(s: CapSet, denied: CapSet, c: Capability)
    requires All !in s
    requires forall d | d in denied :: !IsScope(d)
    ensures SatisfiesRequired(Without(s, denied), c) <==> SatisfiesRequired(s, c) && Avoids(c, denied)
  {
    NarrowsExactlyIff(s, denied);
    if SatisfiesRequired(Without(s, denied), c) {
      NarrowedGrantsAvoidDenied(s, denied, c);
    }
  }

  lemma ScopeDenyTakesTheFamily()
    ensures SatisfiesRequired({Net}, NetTcp) && Avoids(NetTcp, {NetHttp})
    ensures !SatisfiesRequired(Without({Net}, {NetHttp}), NetTcp)
  {
    assert Net.Satisfies(NetTcp);
    assert Net.Overlaps(NetHttp);
  }
}
