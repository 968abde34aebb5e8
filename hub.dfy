/** What travels between the client and the collaboration hub (src/services/signalr.service.ts). */
module Hub {
  import opened Models

  /** An outbound request the editor hands to the service, one per public service method
      that forwards to the hub. */
  datatype Request =
    | ChangeUserRole(connectionId: string, role: UserRole)
    | AddSlide(order: int)
    | RemoveSlide(slideId: int)
    | AddElement(draft: ElementDraft)
    | UpdateElement(element: SlideElement)
    | UpdateElementPosition(elementId: int, positionX: int, positionY: int)
    | RemoveElement(elementId: int)

  /** A hub invocation that actually left the client. `AddSlide` goes out with the
      presentation the service has joined; every other request goes out as it is. */
  datatype HubInvocation =
    | JoinPresentation(presentationId: int, nickname: string, isCreator: bool)
    | LeavePresentation
    | AddSlideTo(presentationId: int, order: int)
    | Forward(request: Request)

  /** The names under which the service re-publishes inbound hub messages. */
  const HubEvents: seq<string> := [
    "UserJoined", "UserLeft", "UserList", "UserRoleChanged",
    "SlideAdded", "SlideRemoved",
    "ElementAdded", "ElementUpdated", "ElementPositionUpdated", "ElementRemoved",
    "Error"]
}
