// Measured edges of the bank table, and the ghost ground truth of banks and rows
// they are labelled with (tools/g3_probe/build_bank_table.py).
module Edges {

  // The timing class of a measured pair; Mid is the undecided valley.
  datatype Label = Low | Mid | Shoulder | Deep

  datatype Edge = Edge(a: nat, b: nat, cls: Label)

  const PAGE: nat := 0x20_0000  // 2 MiB

  function PageNo(pa: nat): nat {
    pa / PAGE
  }

  function PageBase(pa: nat): nat {
    pa - pa % PAGE
  }

  // The hardware's ground truth, which no program sees.
  datatype Truth = Truth(bank: nat -> nat, row: nat -> nat) {

    // Two accesses conflict when they need different rows of one bank.
    predicate Conflict(a: nat, b: nat) {
      bank(a) == bank(b) && row(a) != row(b)
    }

    // The in-page column field cannot absorb page bits.
    ghost predicate PagesNeverShareARow() {
      forall a: nat, b: nat | PageNo(a) != PageNo(b) && bank(a) == bank(b) :: row(a) != row(b)
    }

    // A label that does not lie about the pair it was measured on.
    predicate Admits(cls: Label, a: nat, b: nat) {
      match cls
      case Low => !Conflict(a, b)
      case Deep => Conflict(a, b)
      case Shoulder => bank(a) != bank(b)
      case Mid => true
    }
  }
}
