/** The desk record that every compositor backend fills in for the bar. */
module Desks {
  datatype DeskSlot = DeskSlot(
    key: string,
    title: string,   // the source's `label`
    path: seq<nat>,
    ordinal: nat,
    selected: bool,
    urgent: bool,
    occupied: bool)

  const EMPTY_SLOT := DeskSlot("", "", [], 0, false, false, false)
}
