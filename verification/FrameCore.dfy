// How far the frame has got with its network and with its controller.
module FrameCore {
  datatype NetworkPhase = Unprovisioned | Provisioning | NetworkConnected

  datatype ControllerPhase = NotStarted | Searching | AwaitingConfiguration | Connected | ControllerError
}
