/** The older table helpers (include/util/TableHelper.h). Their `Keys`,
    `GetValue`, `TakeValue` and `TakeValues` are the same code as the current
    ones in `TableHelper`; only `AlignOnProfile` differs: it realigns every
    mangled key, whatever attributes its value carries. */
module TableHelperLegacy {
  import opened Wrappers
  import opened Support
  import opened TableHelper

  /** `AlignOnProfile(table, profile)` with no attribute filter: afterwards
      no mangled key is left at all, so none with another suffix. */
  method AlignOnProfile<P>(t: Table<P>, profile: string)
    requires t.Valid()
    modifies t
    ensures t.Valid()
    ensures IsAligned(old(t.contents), t.contents, MangledKeys(old(t.contents), None), profile)
    ensures forall k :: k in t.contents ==> MangleIndex(k) == |k|
  {
    t.Align(None, profile);
    forall k | k in t.contents
      ensures MangleIndex(k) == |k|
    {
      if MangleIndex(k) < |k| {
        AlignedMangledLeft(old(t.contents), t.contents, None, profile, k);
      }
    }
  }
}
