/** Values shared by every part of the model. */
module Base {

  datatype Option<+T> = None | Some(value: T)

  /** Hashes are fixed-width byte strings compared lexicographically, that is, numbers. */
  type FragmentId = nat
  type HeaderHash = nat

  /** The largest value of the unsigned 32-bit type that holds lengths and sizes. */
  const U32_MAX: nat := 0xFFFF_FFFF

  /** Epochs first, then slots. */
  predicate IsLater(a: BlockDate, b: BlockDate) {
    a.epoch > b.epoch || (a.epoch == b.epoch && a.slot > b.slot)
  }

  datatype BlockDate = BlockDate(epoch: nat, slot: nat) {
    predicate Before(other: BlockDate) {
      epoch < other.epoch || (epoch == other.epoch && slot < other.slot)
    }
  }
}
