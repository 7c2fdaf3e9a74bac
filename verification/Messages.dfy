// The messages a publisher sends to the cell store.

module Messages {
  import opened Radio
  import opened TagStream

  // What decoding the broadcast channel yields besides the cell id.
  datatype MibInfo = MibInfo(nofPorts: nat, nofPrb: nat, sfnOffset: int, startTime: int)

  // The dictionary a message carries. The store looks up the cell id only.
  datatype Dict = Dict(cellId: Option<int>, cp: CpType, info: MibInfo)

  // A message object. The handle is its identity: two objects with equal dictionaries
  // are different when their handles are.
  datatype Handle = Handle(chain: nat, serial: nat)
  datatype Cell = Cell(handle: Handle, dict: Dict)

  datatype Msg = Track(cell: Cell) | Drop(cell: Cell)
}
