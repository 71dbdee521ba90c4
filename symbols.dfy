/** The eleven entry points of the vendor library, in the order of the
    function-pointer struct and of their resolution by the loader. */
module Symbols {

  datatype Symbol =
    | Init | ShutDown
    | GetSocketHandles | GetSocketInfo
    | GetProcessorHandles | GetProcessorType
    | GetGpuBoardInfo | GetGpuId | GetGpuDeviceUuid
    | GetGpuVramUsage | GetGpuBdfId

  const SymbolCount: nat := 11

  /** The order in which the loader asks dlsym for the symbols. */
  const LoadOrder: seq<Symbol> := [
    Init, ShutDown, GetSocketHandles, GetSocketInfo, GetProcessorHandles,
    GetProcessorType, GetGpuBoardInfo, GetGpuId, GetGpuDeviceUuid,
    GetGpuVramUsage, GetGpuBdfId]

  /** The slot of a symbol in the entry table. */
  function Slot(s: Symbol): (i: nat)
    ensures i < SymbolCount && |LoadOrder| == SymbolCount && LoadOrder[i] == s
  {
    match s
    case Init => 0
    case ShutDown => 1
    case GetSocketHandles => 2
    case GetSocketInfo => 3
    case GetProcessorHandles => 4
    case GetProcessorType => 5
    case GetGpuBoardInfo => 6
    case GetGpuId => 7
    case GetGpuDeviceUuid => 8
    case GetGpuVramUsage => 9
    case GetGpuBdfId => 10
  }
}
