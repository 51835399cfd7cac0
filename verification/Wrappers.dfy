/** Values that may be missing, and predicates kept closed until they are wanted. */
module Wrappers {
  datatype Option<+T> = None | Some(value: T)

  /** Some predicates are stated for any `n`, guarded by `Open`, so that what they consist of stays out
      of the way until a proof asks for it with `assert Open(.., 0)`. */
  datatype Seal = DiskSeal | StateSeal | KidsSeal | IndexSeal | LayingSeal | VolumeSeal | HeapSeal | ChainSeal | FolderSeal | DeviceSeal | NameSeal | SearchSeal | ShowSeal

  predicate Open(seal: Seal, n: nat) { true }
}
